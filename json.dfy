/**
 * The JSON records that the database pass reads back from the compiled XAsset files: a record is
 * a dictionary from field names to JSON values, and Python's `None` is `JNull`.
 */
module Json {
  import opened Wrappers
  import Resolvers

  datatype Json = JNull | JBool(b: bool) | JInt(i: int) | JStr(s: string) | JList(elems: seq<Json>) | JObj(fields: map<string, Json>)

  type Record = map<string, Json>

  /** `record.get(key)`: a missing key reads as None. */
  function Get(r: Record, key: string): (v: Json)
    ensures key !in r ==> v == JNull
    ensures key in r ==> v == r[key]
  {
    if key in r then r[key] else JNull
  }

  /** `record.get(key) is None`. */
  predicate IsNull(r: Record, key: string) {
    Get(r, key) == JNull
  }

  /** The JSON form of an optional text. */
  function FromOption(o: Option<string>): (v: Json)
    ensures v == JNull <==> o.None?
  {
    if o.None? then JNull else JStr(o.value)
  }

  /** `if record.get(key) is None: record.pop(key)`: a null field is removed, any other field is kept. */
  function DropIfNull(r: Record, key: string): (out: Record)
    ensures key in out <==> key in r && r[key] != JNull
    ensures forall k :: k != key ==> (k in out <==> k in r)
    ensures forall k :: k in out ==> out[k] == r[k]
  {
    if IsNull(r, key) then r - {key} else r
  }

  /** The null checks, one key after the other: every key of `keys` whose value is null is removed. */
  function DropNulls(r: Record, keys: seq<string>): (out: Record)
    ensures forall k :: k in keys ==> (k in out <==> k in r && r[k] != JNull)
    ensures forall k :: k !in keys ==> (k in out <==> k in r)
    ensures forall k :: k in out ==> out[k] == r[k]
    decreases |keys|
  {
    if keys == [] then r else DropIfNull(DropNulls(r, keys[..|keys| - 1]), keys[|keys| - 1])
  }

  /** The guard of every compiler: none of the keys reads as None. */
  predicate HasAll(r: Record, keys: seq<string>) {
    forall k :: k in keys ==> !IsNull(r, k)
  }

  /** Every key is present, as a `pop` without a default demands. */
  predicate HasKeys(r: Record, keys: seq<string>) {
    forall k :: k in keys ==> k in r
  }

  /** The record after `pop` of each of the keys. */
  function Without(r: Record, keys: seq<string>): (out: Record)
    ensures forall k :: k in out <==> k in r && k !in keys
    ensures forall k :: k in out ==> out[k] == r[k]
  {
    map k | k in r && k !in keys :: r[k]
  }

  const UnreleasedSeason: string := "Unreleased"

  /** The loot and weapon passes drop a season that is the unreleased one; nothing else changes. */
  function Released(r: Record): (out: Record)
    ensures "season" in out <==> "season" in r && r["season"] != JStr(UnreleasedSeason)
    ensures forall k :: k != "season" ==> (k in out <==> k in r)
    ensures forall k :: k in out ==> out[k] == r[k]
  {
    if Get(r, "season") == JStr(UnreleasedSeason) then r - {"season"} else r
  }

  /** A list of dictionaries. */
  predicate IsObjects(v: Json) {
    v.JList? && forall e :: e in v.elems ==> e.JObj?
  }

  /** The dictionaries of such a list, in order. */
  function Objects(v: Json): (rs: seq<Record>)
    requires IsObjects(v)
    ensures |rs| == |v.elems| && forall k :: 0 <= k < |rs| ==> JObj(rs[k]) == v.elems[k]
  {
    assert forall k :: 0 <= k < |v.elems| ==> v.elems[k] in v.elems;
    seq(|v.elems|, k requires 0 <= k < |v.elems| => v.elems[k].fields)
  }

  // ----- Availability -----

  /** The availability the database treats as the default: everywhere but Vanguard and Cold War. */
  const DefaultAvailable: map<string, Json> :=
    map["vanguard" := JBool(false), "coldWar" := JBool(false), "warzone" := JBool(true), "modernWarfare" := JBool(true)]

  /** The availability of an item available nowhere. */
  const NowhereAvailable: map<string, Json> :=
    map["vanguard" := JBool(false), "coldWar" := JBool(false), "warzone" := JBool(false), "modernWarfare" := JBool(false)]

  /**
   * The two `available` checks of each database compiler: the field is removed when it equals
   * exactly one of the two four-key maps.
   */
  function DropAvailability(r: Record): Record {
    var r1 := if Get(r, "available") == JObj(DefaultAvailable) then r - {"available"} else r;
    if Get(r1, "available") == JObj(NowhereAvailable) then r1 - {"available"} else r1
  }

  /** `available` is removed exactly when it is one of the two four-key maps; nothing else changes. */
  lemma AvailabilityDropped(r: Record)
    ensures "available" in DropAvailability(r) <==>
      "available" in r && r["available"] != JObj(DefaultAvailable) && r["available"] != JObj(NowhereAvailable)
    ensures forall k :: k != "available" ==> (k in DropAvailability(r) <==> k in r)
    ensures forall k :: k in DropAvailability(r) ==> DropAvailability(r)[k] == r[k]
  {
    var r1 := if Get(r, "available") == JObj(DefaultAvailable) then r - {"available"} else r;
    if "available" in r && r["available"] == JObj(DefaultAvailable) {
      assert "available" !in r1;
    }
  }

  /** The three-key map that GetTitleAvailability returns. */
  function AvailabilityJson(a: Resolvers.Availability): (v: Json)
    ensures v.JObj? && "vanguard" !in v.fields
  {
    JObj(map["coldWar" := JBool(a.coldWar), "warzone" := JBool(a.warzone), "modernWarfare" := JBool(a.modernWarfare)])
  }

  /**
   * A record whose `available` is the three-key map GetTitleAvailability builds keeps it, even
   * for the default {coldWar: false, warzone: true, modernWarfare: true}: neither four-key map
   * equals a map without `vanguard`.
   */
  lemma CompiledAvailabilityKept(r: Record, a: Resolvers.Availability)
    requires Get(r, "available") == AvailabilityJson(a)
    ensures DropAvailability(r) == r
  {
    assert "vanguard" in DefaultAvailable && "vanguard" in NowhereAvailable;
    assert AvailabilityJson(a) != JObj(DefaultAvailable);
    assert AvailabilityJson(a) != JObj(NowhereAvailable);
  }
}
