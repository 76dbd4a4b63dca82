/**
 * The profile screen's initials: the upper-cased first character of the first
 * two space-separated words of a full name.
 */
module GetInitials {
  import opened Wrappers

  /** The characters `String.prototype.trim` removes: the ECMAScript white space
      and line terminator code points. */
  const Whitespace: set<char> := {
    '\t', '\n', '\U{000B}', '\U{000C}', '\r', ' ', '\U{00A0}', '\U{1680}',
    '\U{2000}', '\U{2001}', '\U{2002}', '\U{2003}', '\U{2004}', '\U{2005}',
    '\U{2006}', '\U{2007}', '\U{2008}', '\U{2009}', '\U{200A}',
    '\U{2028}', '\U{2029}', '\U{202F}', '\U{205F}', '\U{3000}', '\U{FEFF}'
  }

  predicate IsWhitespace(c: char) {
    c in Whitespace
  }

  predicate AllWhitespace(s: string) {
    forall i :: 0 <= i < |s| ==> IsWhitespace(s[i])
  }

  function TrimStart(s: string): (r: string)
    ensures r == [] || !IsWhitespace(r[0])
  {
    if s != [] && IsWhitespace(s[0]) then TrimStart(s[1..]) else s
  }

  /** `TrimStart` only drops white space, and only from the front. */
  lemma {:induction false} TrimStartIsSuffix(s: string)
    ensures |TrimStart(s)| <= |s| && TrimStart(s) == s[|s| - |TrimStart(s)|..]
    ensures AllWhitespace(s[..|s| - |TrimStart(s)|])
  {
    if s != [] && IsWhitespace(s[0]) {
      var t := s[1..];
      TrimStartIsSuffix(t);
      var n := |s| - |TrimStart(s)|;
      forall i | 0 <= i < n ensures IsWhitespace(s[..n][i]) {
        if i > 0 { assert s[..n][i] == t[..n - 1][i - 1]; }
      }
    }
  }

  function TrimEnd(s: string): (r: string)
    ensures |r| <= |s| && r == s[..|r|]
    ensures r == [] || !IsWhitespace(r[|r| - 1])
  {
    if s != [] && IsWhitespace(s[|s| - 1]) then TrimEnd(s[..|s| - 1]) else s
  }

  /** `TrimEnd` only drops white space from the back. */
  lemma {:induction false} TrimEndDropsWhitespace(s: string)
    ensures AllWhitespace(s[|TrimEnd(s)|..])
  {
    if s != [] && IsWhitespace(s[|s| - 1]) {
      var t := s[..|s| - 1];
      TrimEndDropsWhitespace(t);
      var n := |TrimEnd(s)|;
      forall i | n <= i < |s| ensures IsWhitespace(s[i]) {
        if i < |s| - 1 { assert s[i] == t[n..][i - n]; }
      }
    }
  }

  /** `trim()`: the string without its leading and trailing white space. */
  function Trim(s: string): (r: string)
    ensures r == [] || (!IsWhitespace(r[0]) && !IsWhitespace(r[|r| - 1]))
  {
    TrimEnd(TrimStart(s))
  }

  /** `parts.join(" ")`, the inverse of `Split`. */
  function Join(parts: seq<string>): string {
    if parts == [] then []
    else if |parts| == 1 then parts[0]
    else parts[0] + [' '] + Join(parts[1..])
  }

  /** `split(" ")`: the pieces between single spaces, empty pieces included;
      the empty string gives one empty piece. */
  function Split(s: string): (parts: seq<string>)
    ensures |parts| >= 1
    ensures forall i :: 0 <= i < |parts| ==> ' ' !in parts[i]
  {
    if s == [] then [[]]
    else
      var rest := Split(s[1..]);
      if s[0] == ' ' then
        [[]] + rest
      else
        var parts := [[s[0]] + rest[0]] + rest[1..];
        assert parts[1..] == rest[1..];
        parts
  }

  /** Joining the pieces with single spaces gives the string back. */
  lemma {:induction false} JoinSplit(s: string)
    ensures Join(Split(s)) == s
  {
    if s != [] {
      var rest := Split(s[1..]);
      JoinSplit(s[1..]);
      if s[0] == ' ' {
        assert Split(s) == [[]] + rest;
        assert Split(s)[1..] == rest;
        assert s == [' '] + s[1..];
      } else {
        var parts := [[s[0]] + rest[0]] + rest[1..];
        assert Split(s) == parts;
        assert parts[1..] == rest[1..];
        assert s == [s[0]] + s[1..];
      }
    }
  }

  /** A string without spaces followed by a space splits into that string and the split of the rest. */
  lemma {:induction false} SplitAfterWord(w: string, t: string)
    requires ' ' !in w
    ensures Split(w + [' '] + t) == [w] + Split(t)
  {
    if w == [] {
      assert [] + [' '] + t == [' '] + t;
      assert ([' '] + t)[1..] == t;
    } else {
      var x := w + [' '] + t;
      SplitAfterWord(w[1..], t);
      assert x[1..] == w[1..] + [' '] + t;
      var rest := Split(x[1..]);
      assert rest == [w[1..]] + Split(t);
      assert x[0] == w[0] && x[0] != ' ';
      assert Split(x) == [[x[0]] + rest[0]] + rest[1..];
      assert [w[0]] + w[1..] == w;
      assert rest[1..] == Split(t);
    }
  }

  /** A string without spaces is a single piece. */
  lemma {:induction false} SplitWord(w: string)
    requires ' ' !in w
    ensures Split(w) == [w]
  {
    if w != [] {
      SplitWord(w[1..]);
      assert [w[0]] + w[1..] == w;
    }
  }

  /** Splitting undoes joining pieces that hold no space. */
  lemma {:induction false} SplitJoin(parts: seq<string>)
    requires |parts| >= 1
    requires forall i :: 0 <= i < |parts| ==> ' ' !in parts[i]
    ensures Split(Join(parts)) == parts
  {
    if |parts| == 1 {
      SplitWord(parts[0]);
    } else {
      SplitJoin(parts[1..]);
      SplitAfterWord(parts[0], Join(parts[1..]));
      assert parts == [parts[0]] + parts[1..];
    }
  }

  predicate EndsWithSpace(s: string) {
    s != [] && s[|s| - 1] == ' '
  }

  predicate HasDoubleSpace(s: string) {
    exists i :: 0 <= i < |s| - 1 && s[i] == ' ' && s[i + 1] == ' '
  }

  predicate HasEmptyPart(parts: seq<string>, from: nat) {
    exists i :: from <= i < |parts| && parts[i] == []
  }

  lemma DoubleSpaceCons(s: string)
    requires s != []
    ensures HasDoubleSpace(s) <==> HasDoubleSpace(s[1..]) || (|s| >= 2 && s[0] == ' ' && s[1] == ' ')
  {
    var t := s[1..];
    if HasDoubleSpace(t) {
      var i :| 0 <= i < |t| - 1 && t[i] == ' ' && t[i + 1] == ' ';
      assert s[i + 1] == ' ' && s[i + 2] == ' ';
    }
    if HasDoubleSpace(s) {
      var i :| 0 <= i < |s| - 1 && s[i] == ' ' && s[i + 1] == ' ';
      if i > 0 {
        assert t[i - 1] == ' ' && t[i] == ' ';
      }
    }
  }

  lemma EmptyPartUnderEmptyHead(rest: seq<string>)
    ensures HasEmptyPart([[]] + rest, 1) <==> HasEmptyPart(rest, 0)
  {
    var ps := [[]] + rest;
    if HasEmptyPart(rest, 0) {
      var i :| 0 <= i < |rest| && rest[i] == [];
      assert ps[i + 1] == [];
    }
    if HasEmptyPart(ps, 1) {
      var i :| 1 <= i < |ps| && ps[i] == [];
      assert rest[i - 1] == [];
    }
  }

  lemma EmptyPartUnderNewHead(x: string, rest: seq<string>)
    requires rest != []
    ensures HasEmptyPart([x] + rest[1..], 1) <==> HasEmptyPart(rest, 1)
  {
    var ps := [x] + rest[1..];
    if HasEmptyPart(rest, 1) {
      var i :| 1 <= i < |rest| && rest[i] == [];
      assert ps[i] == [];
    }
    if HasEmptyPart(ps, 1) {
      var i :| 1 <= i < |ps| && ps[i] == [];
      assert rest[i] == [];
    }
  }

  lemma EmptyPartHeadOrTail(ps: seq<string>)
    requires ps != []
    ensures HasEmptyPart(ps, 0) <==> ps[0] == [] || HasEmptyPart(ps, 1)
  {
  }

  /** Past the first piece, an empty piece comes from a trailing space or from two spaces in a row. */
  lemma {:induction false} EmptyPieceAfterFirst(s: string)
    ensures HasEmptyPart(Split(s), 1) <==> EndsWithSpace(s) || HasDoubleSpace(s)
  {
    if s != [] {
      var t := s[1..];
      var rest := Split(t);
      EmptyPieceAfterFirst(t);
      DoubleSpaceCons(s);
      assert EndsWithSpace(s) <==> (t == [] && s[0] == ' ') || EndsWithSpace(t);
      if s[0] == ' ' {
        assert Split(s) == [[]] + rest;
        EmptyPartUnderEmptyHead(rest);
        EmptyPartHeadOrTail(rest);
        FirstPiece(t);
      } else {
        assert Split(s) == [[s[0]] + rest[0]] + rest[1..];
        EmptyPartUnderNewHead([s[0]] + rest[0], rest);
      }
    }
  }

  /** The first piece is empty exactly when the string is empty or starts with a space. */
  lemma FirstPiece(s: string)
    ensures Split(s)[0] == [] <==> s == [] || s[0] == ' '
  {
  }

  /** A split has an empty piece exactly when the string is empty, starts or ends
      with a space, or holds two spaces in a row. */
  lemma EmptyPiece(s: string)
    ensures HasEmptyPart(Split(s), 0) <==>
              s == [] || s[0] == ' ' || EndsWithSpace(s) || HasDoubleSpace(s)
  {
    FirstPiece(s);
    EmptyPieceAfterFirst(s);
    EmptyPartHeadOrTail(Split(s));
  }

  /** `toUpperCase` on one character, for the ASCII letters. */
  function ToUpper(c: char): char {
    if 'a' <= c <= 'z' then (c as int - 32) as char else c
  }

  /** Why `getInitials` fails: reading `part[0]` of an empty piece gives
      `undefined`, and calling `toUpperCase` on it throws a TypeError. */
  datatype Error = TypeError

  /** `parts.map(part => part[0].toUpperCase()).join("")`. */
  function Initials(parts: seq<string>): (r: Result<string, Error>)
    ensures r.Ok? <==> forall i :: 0 <= i < |parts| ==> parts[i] != []
    ensures r.Ok? ==> |r.value| == |parts|
                      && forall i :: 0 <= i < |parts| ==> r.value[i] == ToUpper(parts[i][0])
  {
    if parts == [] then Ok([])
    else if parts[0] == [] then Err(TypeError)
    else match Initials(parts[1..])
      case Err(e) => Err(e)
      case Ok(rest) =>
        assert forall i :: 1 <= i < |parts| ==> parts[i] == parts[1..][i - 1];
        Ok([ToUpper(parts[0][0])] + rest)
  }

  /** `getInitials(fullName)`: at most two initials, one per word of the trimmed
      name in order, or a TypeError when a word is empty. */
  function GetInitials(fullName: string): (r: Result<string, Error>)
    ensures r.Ok? <==> !HasEmptyPart(Split(Trim(fullName)), 0)
    ensures r.Ok? ==> var parts := Split(Trim(fullName));
              |r.value| == (if |parts| < 2 then |parts| else 2)
              && forall i :: 0 <= i < |r.value| ==> r.value[i] == ToUpper(parts[i][0])
  {
    var parts := Split(Trim(fullName));
    match Initials(parts)
    case Err(e) => Err(e)
    case Ok(initials) => Ok(initials[..if |initials| < 2 then |initials| else 2])
  }

  /** `getInitials` fails exactly when the trimmed name is empty or holds two spaces in a row. */
  lemma GetInitialsFails(fullName: string)
    ensures GetInitials(fullName).Err? <==> Trim(fullName) == [] || HasDoubleSpace(Trim(fullName))
  {
    var t := Trim(fullName);
    EmptyPiece(t);
    assert t != [] ==> t[0] != ' ' && t[|t| - 1] != ' ';
  }

  /** Trimming removes a leading white-space character and nothing else. */
  lemma TrimStartStep(c: char, s: string)
    requires IsWhitespace(c)
    ensures TrimStart([c] + s) == TrimStart(s)
  {
    assert ([c] + s)[1..] == s;
  }

  lemma WhitespaceTail(a: string)
    requires a != [] && AllWhitespace(a)
    ensures IsWhitespace(a[0]) && AllWhitespace(a[1..])
  {
  }

  lemma {:induction false} TrimStartPadded(a: string, s: string)
    requires AllWhitespace(a)
    ensures TrimStart(a + s) == TrimStart(s)
  {
    if a == [] {
      assert a + s == s;
    } else {
      var t := a[1..];
      WhitespaceTail(a);
      TrimStartPadded(t, s);
      calc {
        TrimStart(a + s);
        { assert a + s == [a[0]] + (t + s); }
        TrimStart([a[0]] + (t + s));
        { TrimStartStep(a[0], t + s); }
        TrimStart(t + s);
      }
    }
  }

  lemma {:induction false} TrimEndPadded(s: string, b: string)
    requires AllWhitespace(b)
    ensures TrimEnd(s + b) == TrimEnd(s)
  {
    if b != [] {
      var n := |b|;
      TrimEndPadded(s, b[..n - 1]);
      assert (s + b)[..|s + b| - 1] == s + b[..n - 1];
    } else {
      assert s + b == s;
    }
  }

  /** Trimming the front of `s + b` keeps `b` whole unless `s` is all white space. */
  lemma {:induction false} TrimStartAppend(s: string, b: string)
    requires AllWhitespace(b)
    ensures TrimStart(s + b) == if AllWhitespace(s) then [] else TrimStart(s) + b
  {
    if s == [] {
      assert s + b == b;
      TrimStartPadded(b, []);
      assert b + [] == b;
    } else if IsWhitespace(s[0]) {
      TrimStartAppend(s[1..], b);
      assert (s + b)[1..] == s[1..] + b;
      assert AllWhitespace(s) <==> AllWhitespace(s[1..]) by {
        if AllWhitespace(s[1..]) {
          forall i | 0 <= i < |s| ensures IsWhitespace(s[i]) {
            if i > 0 { assert s[i] == s[1..][i - 1]; }
          }
        }
      }
    } else {
      assert !AllWhitespace(s);
    }
  }

  /** The trimmed string is the original with white space removed from both ends
      and nothing else: `s` is `Trim(s)` with white space around it. */
  lemma TrimDecomposes(s: string)
    ensures exists a, b :: AllWhitespace(a) && AllWhitespace(b) && s == a + Trim(s) + b
  {
    TrimStartIsSuffix(s);
    var u := TrimStart(s);
    TrimEndDropsWhitespace(u);
    var a, b := s[..|s| - |u|], u[|Trim(s)|..];
    assert u == Trim(s) + b;
    assert s == a + u;
    assert s == a + Trim(s) + b;
  }

  /** White space around the name does not change the initials. */
  lemma PaddingIgnored(a: string, fullName: string, b: string)
    requires AllWhitespace(a) && AllWhitespace(b)
    ensures GetInitials(a + fullName + b) == GetInitials(fullName)
  {
    assert a + fullName + b == a + (fullName + b);
    TrimStartPadded(a, fullName + b);
    TrimStartAppend(fullName, b);
    if AllWhitespace(fullName) {
      TrimStartPadded(fullName, []);
      assert fullName + [] == fullName;
    } else {
      TrimEndPadded(TrimStart(fullName), b);
    }
  }
}
