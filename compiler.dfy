/**
 * What the database pass takes from the compiler object and from Utility: the localization, the
 * exported XAsset files, and the helpers whose code is not part of this model.
 */
module Compiler {
  import Resolvers
  import opened Json

  /**
   * `read` gives the records of `{eXAssets}/<name>.json`; `fileExists` says whether
   * `{iImages}/<image>.png` exists; `animate` is Utility.AnimateSprite for an image and its frame
   * sizes; `sluggify` is Utility.Sluggify; `sortList` is Utility.SortList with its two keys.
   */
  datatype Env = Env(
    localize: Resolvers.Localization,
    read: string -> seq<Record>,
    fileExists: Json -> bool,
    animate: (Json, seq<(int, int)>) -> bool,
    sluggify: Json -> string,
    sortList: (seq<Record>, string, string) -> seq<Record>)

  /** `self.localize.get(key)` as a JSON value. */
  function LocalizedJson(env: Env, key: string): (v: Json)
    ensures v == JNull <==> Resolvers.Lookup(env.localize, key).None?
  {
    FromOption(Resolvers.Lookup(env.localize, key))
  }

  /** `record["slug"]`: the slug of the record's name. */
  function Slug(env: Env, r: Record): Json {
    JStr(env.sluggify(Get(r, "name")))
  }

  /** The animated flag when AnimateSprite says so, then the slug: what every kept record gets last. */
  function Finished(env: Env, r: Record, animated: bool, name: Json): (out: Record)
    ensures "slug" in out && out["slug"] == JStr(env.sluggify(name))
    ensures animated ==> "animated" in out && out["animated"] == JBool(true)
    ensures !animated ==> ("animated" in out <==> "animated" in r) && ("animated" in out ==> out["animated"] == r["animated"])
    ensures forall k :: k != "slug" && k != "animated" ==> (k in out <==> k in r)
    ensures forall k :: k in out && k != "slug" && k != "animated" ==> out[k] == r[k]
  {
    var flagged := if animated then r["animated" := JBool(true)] else r;
    flagged["slug" := JStr(env.sluggify(name))]
  }
}
