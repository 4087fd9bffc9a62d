/**
 * The parsed template and the in-place edit the script makes to it: `name`
 * and `chainId` become the identifier, and `rpc` becomes the local Docker
 * host URL when it is exactly the placeholder. Every other key is kept.
 */
module Config {
  import opened Opt

  /** A JSON value as `JSON.parse` produces it. Objects are maps from keys
      to values; numbers are kept but never inspected. */
  datatype Json =
    | JNull
    | JBool(b: bool)
    | JNumber(n: real)
    | JString(s: string)
    | JArray(items: seq<Json>)
    | JObject(fields: map<string, Json>)

  const NameKey: string := "name"
  const ChainIdKey: string := "chainId"
  const RpcKey: string := "rpc"

  /** The placeholder that marks a template `rpc` as not yet configured. */
  const RpcPlaceholder: string := "<YOUR RPC URL (debug_traceCall enabled)>"

  /** The endpoint written in place of the placeholder. */
  function LocalRpcUrl(id: string): (url: string)
    ensures "http://host.docker.internal:" <= url
    ensures url[|"http://host.docker.internal:"|..] == id
  {
    "http://host.docker.internal:" + id
  }

  /** The generated URL is never the placeholder, whatever the identifier. */
  lemma LocalRpcUrlIsNotPlaceholder(id: string)
    ensures LocalRpcUrl(id) != RpcPlaceholder
  {
    assert LocalRpcUrl(id)[0] == 'h' != RpcPlaceholder[0];
  }

  /** Reading a property: `undefined` (here `None`) for an absent key. */
  function Lookup(fields: map<string, Json>, key: string): Option<Json> {
    if key in fields then Some(fields[key]) else None
  }

  /**
   * The object after the edit, as a function of the object before it. This
   * is what `ChainConfig.ApplyChainId` is proved to compute.
   */
  function Transformed(fields: map<string, Json>, id: string): (r: map<string, Json>)
    ensures r.Keys == fields.Keys + {NameKey, ChainIdKey}
    ensures r[NameKey] == JString(id) && r[ChainIdKey] == JString(id)
  {
    var named := fields[NameKey := JString(id)][ChainIdKey := JString(id)];
    if Lookup(named, RpcKey) == Some(JString(RpcPlaceholder))
    then named[RpcKey := JString(LocalRpcUrl(id))]
    else named
  }

  /** A parsed JSON object whose properties the script assigns in place. */
  class ChainConfig {
    var fields: map<string, Json>

    constructor (parsed: map<string, Json>)
      ensures fields == parsed
    {
      fields := parsed;
    }

    /** `chainConfig[key]` */
    function Get(key: string): (v: Option<Json>)
      reads this
      ensures v.Some? <==> key in fields
      ensures v.Some? ==> v.value == fields[key]
    {
      Lookup(fields, key)
    }

    /** `chainConfig[key] = value`: adds the key or overwrites it. */
    method Set(key: string, value: Json)
      modifies this
      ensures fields == old(fields)[key := value]
    {
      fields := fields[key := value];
    }

    /**
     * Lines 39-49 and the comparison at 57 of the script: remember `rpc`,
     * assign `name` and `chainId`, swap the placeholder `rpc` for the local
     * URL, and report whether `rpc` now differs from what was remembered.
     */
    method ApplyChainId(id: string) returns (rpcChanged: bool)
      modifies this
      ensures fields == Transformed(old(fields), id)
      ensures rpcChanged <==> old(Get(RpcKey)) == Some(JString(RpcPlaceholder))
    {
      var originalRpc := Get(RpcKey);
      Set(NameKey, JString(id));
      Set(ChainIdKey, JString(id));
      if Get(RpcKey) == Some(JString(RpcPlaceholder)) {
        Set(RpcKey, JString(LocalRpcUrl(id)));
      }
      LocalRpcUrlIsNotPlaceholder(id);
      rpcChanged := originalRpc != Get(RpcKey);
    }
  }

  /** After the edit, `name` and `chainId` both hold the identifier string. */
  lemma TransformSetsIdentity(fields: map<string, Json>, id: string)
    ensures Lookup(Transformed(fields, id), NameKey) == Some(JString(id))
    ensures Lookup(Transformed(fields, id), ChainIdKey) == Some(JString(id))
  {
  }

  /** `rpc` is the local URL when it was exactly the placeholder, and is
      otherwise what it was, absent included. */
  lemma TransformRpc(fields: map<string, Json>, id: string)
    ensures Lookup(fields, RpcKey) == Some(JString(RpcPlaceholder)) ==>
              Lookup(Transformed(fields, id), RpcKey) == Some(JString(LocalRpcUrl(id)))
    ensures Lookup(fields, RpcKey) != Some(JString(RpcPlaceholder)) ==>
              Lookup(Transformed(fields, id), RpcKey) == Lookup(fields, RpcKey)
  {
  }

  /** Every other key keeps its value, and no key is removed. */
  lemma TransformFrame(fields: map<string, Json>, id: string, key: string)
    requires key != NameKey && key != ChainIdKey && key != RpcKey
    ensures Lookup(Transformed(fields, id), key) == Lookup(fields, key)
    ensures Transformed(fields, id).Keys == fields.Keys + {NameKey, ChainIdKey}
  {
  }

  /** The change report is true exactly when `rpc` was the placeholder. */
  lemma RpcChangedIffPlaceholder(fields: map<string, Json>, id: string)
    ensures Lookup(Transformed(fields, id), RpcKey) != Lookup(fields, RpcKey)
            <==> Lookup(fields, RpcKey) == Some(JString(RpcPlaceholder))
  {
    LocalRpcUrlIsNotPlaceholder(id);
  }

  /** Applying the edit twice with the same identifier changes nothing more. */
  lemma TransformIdempotent(fields: map<string, Json>, id: string)
    ensures Transformed(Transformed(fields, id), id) == Transformed(fields, id)
  {
    LocalRpcUrlIsNotPlaceholder(id);
    var once := Transformed(fields, id);
    assert once[NameKey := JString(id)][ChainIdKey := JString(id)] == once;
  }
}
