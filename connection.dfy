/** `s3_client` of s3tethys/main.py: the keyword arguments it hands to the S3
    SDK, with the nested client `config` block merged with the helper's own
    tuning; and the `s3://bucket/key` form of an object's address. */
module Connection {
  import opened Values

  /** A value of the connection dictionary. */
  datatype ConfigValue =
    | IntValue(i: int)
    | StrValue(s: string)
    | DictValue(entries: map<string, ConfigValue>)

  /** The client handle: the SDK object, of which the model keeps only the
      endpoint host that the listing helper inspects. */
  datatype Client = Client(endpointHost: string)

  datatype ClientError =
    | InvalidConnectionConfig  // the connection-config schema rejected the dictionary
    | ConfigNotADict           // a `config` entry without dictionary methods

  const ConfigKey: string := "config"

  /** The tuning the helper always writes into the client configuration. */
  function Tuning(maxPoolConnections: int): map<string, ConfigValue> {
    map[
      "max_pool_connections" := IntValue(maxPoolConnections),
      "retries" := DictValue(map["mode" := StrValue("standard")]),
      "read_timeout" := IntValue(120)
    ]
  }

  /** The keyword arguments `s3_client` builds the client from. `schemaValid`
      is the verdict of the connection-config schema, which lies outside the model. */
  function S3ClientArgs(connectionConfig: map<string, ConfigValue>, schemaValid: bool,
                        maxPoolConnections: int := 30)
    : (r: Result<map<string, ConfigValue>, ClientError>)
    ensures r.Err? <==>
      !schemaValid || (ConfigKey in connectionConfig && !connectionConfig[ConfigKey].DictValue?)
    ensures r == Err(InvalidConnectionConfig) <==> !schemaValid
    ensures r.Ok? ==> r.value.Keys == connectionConfig.Keys + {ConfigKey}
    ensures r.Ok? ==> forall k :: k in connectionConfig && k != ConfigKey ==> r.value[k] == connectionConfig[k]
  {
    if !schemaValid then Err(InvalidConnectionConfig)
    else if ConfigKey in connectionConfig then
      match connectionConfig[ConfigKey]
      case DictValue(supplied) => Ok(connectionConfig[ConfigKey := DictValue(supplied + Tuning(maxPoolConnections))])
      case _ => Err(ConfigNotADict)
    else Ok(connectionConfig[ConfigKey := DictValue(Tuning(maxPoolConnections))])
  }

  /** The nested client configuration after the merge: the three tuning keys
      hold the helper's values whatever the caller put there, and every other
      key the caller supplied is kept. */
  lemma S3ClientArgsOverridesTuning(connectionConfig: map<string, ConfigValue>, maxPoolConnections: int)
    requires S3ClientArgs(connectionConfig, true, maxPoolConnections).Ok?
    ensures var args := S3ClientArgs(connectionConfig, true, maxPoolConnections).value;
      var supplied := if ConfigKey in connectionConfig then connectionConfig[ConfigKey].entries else map[];
      && args[ConfigKey].DictValue?
      && args[ConfigKey].entries.Keys == supplied.Keys + Tuning(maxPoolConnections).Keys
      && args[ConfigKey].entries["max_pool_connections"] == IntValue(maxPoolConnections)
      && args[ConfigKey].entries["retries"] == DictValue(map["mode" := StrValue("standard")])
      && args[ConfigKey].entries["read_timeout"] == IntValue(120)
      && forall k :: k in supplied && k !in Tuning(maxPoolConnections) ==> args[ConfigKey].entries[k] == supplied[k]
  {
  }

  /** `s3_url_base`: the address smart_open is given for an object. */
  function S3Url(bucket: string, key: string): (url: string)
    ensures |url| == 6 + |bucket| + |key|
    ensures url[..5] == "s3://" && url[5..5 + |bucket|] == bucket
    ensures url[5 + |bucket|] == '/' && url[6 + |bucket|..] == key
  {
    "s3://" + bucket + "/" + key
  }
}
