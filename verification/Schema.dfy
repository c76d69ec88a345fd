/** The values that flow between the executor's parts: JSON payloads, node outputs and
    node declarations, plus the two usual wrapper types. */
module Schema {

  datatype Option<+T> = None | Some(value: T)
  {
    function GetOr(default: T): T {
      if Some? then value else default
    }
  }

  datatype Result<+T, +E> = Ok(value: T) | Err(error: E)

  /** A parsed JSON value. Numbers are kept as the text they print as. */
  datatype Json =
    | JNull
    | JBool(b: bool)
    | JNumber(text: string)
    | JString(s: string)
    | JArray(items: seq<Json>)
    | JObject(fields: map<string, Json>)

  /** What a node left behind. Every variant carries output text. */
  datatype NodeOutput =
    | Completed(output: string, sessionId: Option<string>,
                structured: Option<Json>, declared: Option<seq<string>>)
    | Running(output: string, sessionId: Option<string>,
              structured: Option<Json>, declared: Option<seq<string>>)
    | Failed(output: string, sessionId: Option<string>, error: string,
             structured: Option<Json>, declared: Option<seq<string>>)
    | Pending(output: string)
    | Skipped(output: string)
  {
    predicate Settled() {
      Completed? || Failed? || Skipped?
    }
  }

  type Outputs = map<string, NodeOutput>

  datatype TriggerRule = AllSuccess | OneSuccess | NoneFailedMinOneSuccess | AllDone

  datatype Node = Node(
    id: string,
    dependsOn: seq<string>,
    when: Option<string>,
    triggerRule: Option<TriggerRule>,
    alwaysRun: bool,
    freshContext: bool)
}
