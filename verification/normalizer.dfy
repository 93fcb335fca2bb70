/** The clean-up applied to the `world_setting` object of an analysis
    result before it is validated: legacy key names are renamed, the core
    rules become one string, and the key locations always exist. */
module Normalizer {
  import opened Wrappers
  import opened Text
  import opened Json

  const WorldSettingKey := "world_setting"
  const RulesKey := "rules"
  const CoreRulesKey := "core_rules"
  const LocationsKey := "locations"
  const KeyLocationsKey := "key_locations"

  /** The four keys the clean-up may touch. */
  predicate IsWorldKey(k: string) {
    k == RulesKey || k == CoreRulesKey || k == LocationsKey || k == KeyLocationsKey
  }

  lemma WorldKeysDistinct()
    ensures RulesKey != CoreRulesKey && RulesKey != LocationsKey && RulesKey != KeyLocationsKey
    ensures CoreRulesKey != LocationsKey && CoreRulesKey != KeyLocationsKey
    ensures LocationsKey != KeyLocationsKey
  {
    assert |RulesKey| == 5 && |CoreRulesKey| == 10 && |LocationsKey| == 9 && |KeyLocationsKey| == 13;
  }

  /** Step 1: `ws[canonical] = ws.pop(legacy)`, done only when the legacy key
      is present and the canonical one is not. */
  function Rename(ws: seq<Field>, legacy: string, canonical: string): (r: seq<Field>)
    requires legacy != canonical
    ensures Has(ws, canonical) || !Has(ws, legacy) ==> r == ws
    ensures !Has(ws, canonical) && Has(ws, legacy) ==>
              Lookup(r, canonical) == Lookup(ws, legacy) && Lookup(r, legacy) == None
    ensures forall k :: k != legacy && k != canonical ==> Lookup(r, k) == Lookup(ws, k)
  {
    if Has(ws, legacy) && !Has(ws, canonical) then
      Put(Remove(ws, legacy), canonical, Lookup(ws, legacy).value)
    else ws
  }

  /** `"\n".join(str(r) for r in items)`. */
  function JoinRules(items: seq<Json>): string {
    Join(seq(|items|, i requires 0 <= i < |items| => Str(items[i])), "\n")
  }

  /** Step 2: a list of core rules becomes one string of lines, and a missing
      entry becomes the empty string; any other value is kept. */
  function CoerceCoreRules(ws: seq<Field>): (r: seq<Field>)
    ensures Lookup(r, CoreRulesKey) == Some(RulesText(Lookup(ws, CoreRulesKey)))
    ensures forall k :: k != CoreRulesKey ==> Lookup(r, k) == Lookup(ws, k)
  {
    match Lookup(ws, CoreRulesKey)
    case None => Put(ws, CoreRulesKey, JString(""))
    case Some(JArray(items)) => Put(ws, CoreRulesKey, JString(JoinRules(items)))
    case Some(_) => ws
  }

  /** Step 3: an absent `key_locations` becomes the empty list. */
  function EnsureKeyLocations(ws: seq<Field>): (r: seq<Field>)
    ensures Lookup(r, KeyLocationsKey) == Some(Lookup(ws, KeyLocationsKey).GetOr(JArray([])))
    ensures forall k :: k != KeyLocationsKey ==> Lookup(r, k) == Lookup(ws, k)
  {
    if Has(ws, KeyLocationsKey) then ws else Put(ws, KeyLocationsKey, JArray([]))
  }

  /** The value the core rules end up with, given where they were found:
      never a list. */
  function RulesText(found: Option<Json>): (v: Json)
    ensures !v.JArray?
  {
    match found
    case None => JString("")
    case Some(JArray(items)) => JString(JoinRules(items))
    case Some(v) => v
  }

  /** Where the core rules come from: the canonical key, else the legacy one. */
  function RulesSource(ws: seq<Field>): Option<Json> {
    if Has(ws, CoreRulesKey) then Lookup(ws, CoreRulesKey) else Lookup(ws, RulesKey)
  }

  /** Where the key locations come from: the canonical key, else the legacy one. */
  function LocationsSource(ws: seq<Field>): Option<Json> {
    if Has(ws, KeyLocationsKey) then Lookup(ws, KeyLocationsKey) else Lookup(ws, LocationsKey)
  }

  /** The shape the front end relies on: core rules present and not a list,
      key locations present. */
  predicate Canonical(ws: seq<Field>) {
    match Lookup(ws, CoreRulesKey)
    case None => false
    case Some(v) => !v.JArray? && Has(ws, KeyLocationsKey)
  }

  /** Step 1 for both legacy keys. */
  function RenameLegacyKeys(ws: seq<Field>): (r: seq<Field>)
    ensures Lookup(r, CoreRulesKey) == RulesSource(ws)
    ensures Lookup(r, RulesKey) == (if Has(ws, CoreRulesKey) then Lookup(ws, RulesKey) else None)
    ensures Lookup(r, KeyLocationsKey) == LocationsSource(ws)
    ensures Lookup(r, LocationsKey) ==
              (if Has(ws, KeyLocationsKey) then Lookup(ws, LocationsKey) else None)
    ensures forall k :: !IsWorldKey(k) ==> Lookup(r, k) == Lookup(ws, k)
  {
    WorldKeysDistinct();
    var a := Rename(ws, RulesKey, CoreRulesKey);
    assert Lookup(a, KeyLocationsKey) == Lookup(ws, KeyLocationsKey);
    assert Lookup(a, LocationsKey) == Lookup(ws, LocationsKey);
    Rename(a, LocationsKey, KeyLocationsKey)
  }

  /** Steps 1 to 3 on one `world_setting` object. */
  function NormalizeWorld(ws: seq<Field>): (r: seq<Field>)
    ensures Canonical(r)
    ensures Lookup(r, CoreRulesKey) == Some(RulesText(RulesSource(ws)))
    ensures Lookup(r, RulesKey) == (if Has(ws, CoreRulesKey) then Lookup(ws, RulesKey) else None)
    ensures Lookup(r, KeyLocationsKey) == Some(LocationsSource(ws).GetOr(JArray([])))
    ensures Lookup(r, LocationsKey) ==
              (if Has(ws, KeyLocationsKey) then Lookup(ws, LocationsKey) else None)
    ensures forall k :: !IsWorldKey(k) ==> Lookup(r, k) == Lookup(ws, k)
  {
    WorldKeysDistinct();
    var b := RenameLegacyKeys(ws);
    var c := CoerceCoreRules(b);
    var r := EnsureKeyLocations(c);
    assert Lookup(c, KeyLocationsKey) == Lookup(b, KeyLocationsKey);
    assert Lookup(r, CoreRulesKey) == Lookup(c, CoreRulesKey);
    assert Lookup(r, RulesKey) == Lookup(b, RulesKey);
    assert Lookup(r, LocationsKey) == Lookup(b, LocationsKey);
    r
  }

  /** The clean-up changes a `world_setting` object exactly when it is not
      yet in canonical shape. */
  lemma NormalizeWorldFixpoint(ws: seq<Field>)
    ensures NormalizeWorld(ws) == ws <==> Canonical(ws)
  {
    if Canonical(ws) {
      var a := Rename(ws, RulesKey, CoreRulesKey);
      var b := Rename(a, LocationsKey, KeyLocationsKey);
      assert b == ws;
      PutExisting(ws, CoreRulesKey, Lookup(ws, CoreRulesKey).value);
    }
  }

  /** Cleaning up twice is cleaning up once. */
  lemma NormalizeWorldIdempotent(ws: seq<Field>)
    ensures NormalizeWorld(NormalizeWorld(ws)) == NormalizeWorld(ws)
  {
    NormalizeWorldFixpoint(NormalizeWorld(ws));
  }

  /** The clean-up of a parsed analysis result. `None` stands for the
      `TypeError` Python raises when `world_setting` is not an object; a
      result without `world_setting` passes unchanged. */
  function NormalizeData(data: seq<Field>): (r: Option<seq<Field>>)
    ensures r.None? <==> Has(data, WorldSettingKey) && !Lookup(data, WorldSettingKey).value.JObject?
    ensures !Has(data, WorldSettingKey) ==> r == Some(data)
    ensures r.Some? && Has(data, WorldSettingKey) ==>
              Lookup(r.value, WorldSettingKey) ==
                Some(JObject(NormalizeWorld(Lookup(data, WorldSettingKey).value.fields)))
    ensures r.Some? ==> forall k :: k != WorldSettingKey ==> Lookup(r.value, k) == Lookup(data, k)
  {
    match Lookup(data, WorldSettingKey)
    case None => Some(data)
    case Some(JObject(ws)) => Some(Put(data, WorldSettingKey, JObject(NormalizeWorld(ws))))
    case Some(_) => None
  }

  /** Cleaning up an already cleaned result changes nothing. */
  lemma NormalizeDataIdempotent(data: seq<Field>)
    requires NormalizeData(data).Some?
    ensures NormalizeData(NormalizeData(data).value) == NormalizeData(data)
  {
    var n := NormalizeData(data).value;
    if Has(data, WorldSettingKey) {
      var ws := NormalizeWorld(Lookup(data, WorldSettingKey).value.fields);
      NormalizeWorldIdempotent(Lookup(data, WorldSettingKey).value.fields);
      PutExisting(n, WorldSettingKey, JObject(ws));
    }
  }
}
