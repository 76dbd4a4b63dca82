/**
 * The client-side delivery fee estimate: a flat fee that depends only on
 * whether the sender and delivery communes are the same, neighbours in a small
 * hard-coded table, or neither, and on whether the parcel is EXPRESS.
 */
module CalculateFee {
  import opened Wrappers

  datatype ParcelType = Single | Multiple | Cargo | Express

  /** Fees in Guinean francs. */
  const SameCommuneFee := 10000
  const NeighboringFee := 15000
  const DistantFee := 25000
  const ExpressFee := 20000

  /** `neighboringCommunes`: the communes listed as neighbours of each commune. */
  const NeighboringCommunes: map<string, seq<string>> := map[
    "Ratoma" := ["Lambanyi", "Sonfonia"],
    "Lambanyi" := ["Ratoma", "Sonfonia"],
    "Sonfonia" := ["Ratoma", "Lambanyi"],
    "Gbessia" := ["Matoto", "Tombolia"],
    "Matoto" := ["Gbessia", "Tombolia"],
    "Tombolia" := ["Matoto", "Gbessia"]
  ]

  /** The keys a plain object inherits from `Object.prototype` (section 20.1.3 and
      Annex B.2.2 of ECMA-262). Looking one of them up in the table gives a function
      or the prototype itself, which has no `includes` method. */
  const InheritedKeys: set<string> := {
    "constructor", "hasOwnProperty", "isPrototypeOf", "propertyIsEnumerable",
    "toLocaleString", "toString", "valueOf", "__proto__",
    "__defineGetter__", "__defineSetter__", "__lookupGetter__", "__lookupSetter__"
  }

  /** The TypeError thrown when `includes` is called on a value that lacks it. */
  datatype FeeError = IncludesIsNotAFunction

  /** The table has its own entry for `a`, and it lists `b`. */
  predicate Lists(a: string, b: string) {
    a in NeighboringCommunes && b in NeighboringCommunes[a]
  }

  /** `neighboringCommunes[a]?.includes(b)`: whether an own entry lists `b`, false
      when `a` has no entry at all, and a TypeError for an inherited key. */
  function Includes(a: string, b: string): (r: Result<bool, FeeError>)
    ensures r.Err? <==> a in InheritedKeys
    ensures r.Ok? ==> (r.value <==> Lists(a, b))
  {
    if a in NeighboringCommunes then Ok(b in NeighboringCommunes[a])
    else if a in InheritedKeys then Err(IncludesIsNotAFunction)
    else Ok(false)
  }

  /** The `isNeighboring` test, which looks the pair up in both directions; the
      second lookup runs only when the first one gives false. */
  function IsNeighboring(a: string, b: string): (r: Result<bool, FeeError>)
    ensures r.Err? <==> a in InheritedKeys || (!Lists(a, b) && b in InheritedKeys)
    ensures r.Ok? ==> (r.value <==> Lists(a, b) || Lists(b, a))
  {
    match Includes(a, b)
    case Err(e) => Err(e)
    case Ok(true) => Ok(true)
    case Ok(false) => Includes(b, a)
  }

  /** `calculateDeliveryFee`. The lookup runs before the EXPRESS override, so an
      inherited key fails whatever the parcel type; any other pair of names gets a fee. */
  function CalculateDeliveryFee(senderCommune: string, deliveryCommune: string, parcelType: ParcelType): (r: Result<int, FeeError>)
    ensures r.Err? <==>
              senderCommune != deliveryCommune &&
              (senderCommune in InheritedKeys || deliveryCommune in InheritedKeys)
    ensures r.Ok? && parcelType == Express ==> r.value == ExpressFee
    ensures r.Ok? && parcelType != Express && senderCommune == deliveryCommune ==> r.value == SameCommuneFee
    ensures r.Ok? && parcelType != Express && senderCommune != deliveryCommune ==>
              r.value == if SameGroup(senderCommune, deliveryCommune) then NeighboringFee else DistantFee
  {
    var fee :=
      if senderCommune != deliveryCommune then
        var isNeighboring := IsNeighboring(senderCommune, deliveryCommune);
        if isNeighboring.Err? then
          ListsIffSameGroup(senderCommune, deliveryCommune);
          Err(isNeighboring.error)
        else
          NeighborsAreSameGroup(senderCommune, deliveryCommune);
          Ok(if isNeighboring.value then NeighboringFee else DistantFee)
      else Ok(SameCommuneFee);
    if fee.Err? then fee
    else if parcelType == Express then Ok(ExpressFee) else fee
  }

  /** The group a commune belongs to, read off the table by hand: the table joins
      every two distinct communes of the same group and nothing else. */
  function Group(c: string): Option<nat> {
    if c == "Ratoma" || c == "Lambanyi" || c == "Sonfonia" then Some(0)
    else if c == "Gbessia" || c == "Matoto" || c == "Tombolia" then Some(1)
    else None
  }

  predicate SameGroup(a: string, b: string) {
    Group(a).Some? && Group(a) == Group(b)
  }

  /** The table lists `b` under `a` exactly when they are distinct communes of one group. */
  lemma ListsIffSameGroup(a: string, b: string)
    ensures Lists(a, b) <==> a != b && SameGroup(a, b)
  {
    if a in NeighboringCommunes {
      assert a in {"Ratoma", "Lambanyi", "Sonfonia", "Gbessia", "Matoto", "Tombolia"};
    }
  }

  /** Two distinct communes are neighbours, in either direction, exactly when they share a group. */
  lemma NeighborsAreSameGroup(a: string, b: string)
    requires a != b
    ensures Lists(a, b) || Lists(b, a) <==> SameGroup(a, b)
  {
    ListsIffSameGroup(a, b);
    ListsIffSameGroup(b, a);
  }

  /** The table as written is symmetric and no commune is its own neighbour. */
  lemma TableSymmetricIrreflexive(a: string, b: string)
    ensures Lists(a, b) ==> Lists(b, a)
    ensures !Lists(a, a)
  {
    ListsIffSameGroup(a, b);
    ListsIffSameGroup(b, a);
    ListsIffSameGroup(a, a);
  }

  /** Swapping sender and delivery commune changes neither the fee nor whether the
      lookup fails. */
  lemma FeeIsSymmetric(a: string, b: string, t: ParcelType)
    ensures CalculateDeliveryFee(a, b, t) == CalculateDeliveryFee(b, a, t)
  {
  }

  /** Only four fees are possible, and the only failure is an inherited key. */
  lemma FeeRange(a: string, b: string, t: ParcelType)
    ensures match CalculateDeliveryFee(a, b, t)
            case Ok(fee) => fee in {SameCommuneFee, NeighboringFee, ExpressFee, DistantFee}
            case Err(e) => a in InheritedKeys || b in InheritedKeys
  {
  }

  /** A commune missing from the table is nobody's neighbour, so any other commune
      costs the distant fee, unless one of the two names is an inherited key. */
  lemma UnlistedCommuneIsDistant(a: string, b: string, t: ParcelType)
    requires a !in NeighboringCommunes && a != b && t != Express
    ensures CalculateDeliveryFee(a, b, t) ==
              if a in InheritedKeys || b in InheritedKeys then Err(IncludesIsNotAFunction) else Ok(DistantFee)
  {
    ListsIffSameGroup(b, a);
  }
}
