/** Which string `SendImageToGeminiAPI` returns for the response it got.

    Building the request and the HTTP exchange are library and network calls: the
    model takes their outcome as an `Exchange`. The parsed response body is a JSON
    tree, navigated the way `System.Text.Json.JsonElement` does it:
    `TryGetProperty` throws on a non-object and matches the last of duplicate names,
    `GetArrayLength` and the indexer throw on a non-array, and `GetString` returns
    the string, null for a JSON null, and throws on anything else. */
module GeminiResponse {
  import opened Wrappers

  datatype Json =
    | JNull
    | JBool(b: bool)
    | JNumber(literal: string)
    | JString(s: string)
    | JArray(elems: seq<Json>)
    | JObject(props: seq<(string, Json)>)

  /** The value of the last property called `name`. */
  function Lookup(props: seq<(string, Json)>, name: string): Option<Json> {
    if |props| == 0 then None
    else if props[|props| - 1].0 == name then Some(props[|props| - 1].1)
    else Lookup(props[..|props| - 1], name)
  }

  /** Property `i` is called `name` and no later property is. */
  predicate LastIndexOf(props: seq<(string, Json)>, name: string, i: int) {
    0 <= i < |props| && props[i].0 == name &&
    forall j :: i < j < |props| ==> props[j].0 != name
  }

  /** `(name, v)` occurs in `props` and no later property is called `name`. */
  ghost predicate IsLastProperty(props: seq<(string, Json)>, name: string, v: Json) {
    exists i :: LastIndexOf(props, name, i) && props[i].1 == v
  }

  lemma {:induction false} LookupFindsLast(props: seq<(string, Json)>, name: string, v: Json)
    ensures Lookup(props, name) == Some(v) <==> IsLastProperty(props, name, v)
  {
    if Lookup(props, name) == Some(v) {
      LookupIsLast(props, name, v);
    }
    if IsLastProperty(props, name, v) {
      var i :| LastIndexOf(props, name, i) && props[i].1 == v;
      LastIsLookup(props, name, i);
    }
  }

  lemma {:induction false} LookupIsLast(props: seq<(string, Json)>, name: string, v: Json)
    requires Lookup(props, name) == Some(v)
    ensures IsLastProperty(props, name, v)
  {
    var n := |props| - 1;
    if props[n].0 == name {
      assert LastIndexOf(props, name, n);
    } else {
      var front := props[..n];
      LookupIsLast(front, name, v);
      var i :| LastIndexOf(front, name, i) && front[i].1 == v;
      assert LastIndexOf(props, name, i);
    }
  }

  lemma {:induction false} LastIsLookup(props: seq<(string, Json)>, name: string, i: int)
    requires LastIndexOf(props, name, i)
    ensures Lookup(props, name) == Some(props[i].1)
  {
    var n := |props| - 1;
    if i < n {
      var front := props[..n];
      assert props[n].0 != name;
      assert LastIndexOf(front, name, i);
      LastIsLookup(front, name, i);
    }
  }

  lemma {:induction false} LookupAbsent(props: seq<(string, Json)>, name: string)
    ensures Lookup(props, name) == None <==> forall i :: 0 <= i < |props| ==> props[i].0 != name
  {
    if |props| > 0 {
      var n := |props| - 1;
      LookupAbsent(props[..n], name);
      assert forall i :: 0 <= i < n ==> props[..n][i] == props[i];
    }
  }

  /** The outcome of one navigation step. */
  datatype Access = Thrown | Missing | Got(v: Json)

  /** `e.TryGetProperty(name, out v)`. */
  function TryGetProperty(e: Json, name: string): Access {
    if !e.JObject? then Thrown
    else match Lookup(e.props, name)
      case None => Missing
      case Some(v) => Got(v)
  }

  /** `e.GetArrayLength() > 0` followed by `e[0]`. */
  function FirstElement(e: Json): Access {
    if !e.JArray? then Thrown
    else if |e.elems| == 0 then Missing
    else Got(e.elems[0])
  }

  /** What the text navigation yields. */
  datatype Nav = Text(s: string) | NullText | Absent | NavThrown

  /** `GetString()` on the leaf. */
  function GetString(v: Json): Nav {
    match v
    case JString(s) => Text(s)
    case JNull => NullText
    case _ => NavThrown
  }

  /** The short-circuit chain `candidates[0].content.parts[0].text`. */
  function Navigate(root: Json): Nav {
    match TryGetProperty(root, "candidates")
    case Thrown => NavThrown
    case Missing => Absent
    case Got(candidates) =>
      match FirstElement(candidates)
      case Thrown => NavThrown
      case Missing => Absent
      case Got(first) =>
        match TryGetProperty(first, "content")
        case Thrown => NavThrown
        case Missing => Absent
        case Got(content) =>
          match TryGetProperty(content, "parts")
          case Thrown => NavThrown
          case Missing => Absent
          case Got(parts) =>
            match FirstElement(parts)
            case Thrown => NavThrown
            case Missing => Absent
            case Got(part) =>
              match TryGetProperty(part, "text")
              case Thrown => NavThrown
              case Missing => Absent
              case Got(text) => GetString(text)
  }

  /** A reference resolver for paths of property names and array indices:
      a step on the wrong kind of node throws, a missing name or index is absent. */
  datatype PathStep = Key(name: string) | Index(i: nat)

  function Resolve(j: Json, path: seq<PathStep>): Access
    decreases |path|
  {
    if |path| == 0 then Got(j)
    else match path[0]
      case Key(name) =>
        (match TryGetProperty(j, name)
         case Got(v) => Resolve(v, path[1..])
         case other => other)
      case Index(i) =>
        if !j.JArray? then Thrown
        else if i < |j.elems| then Resolve(j.elems[i], path[1..])
        else Missing
  }

  const TextPath: seq<PathStep> :=
    [Key("candidates"), Index(0), Key("content"), Key("parts"), Index(0), Key("text")]

  /** The hand-written chain is the generic resolver on `TextPath` followed by `GetString`. */
  lemma NavigateIsResolve(root: Json)
    ensures Navigate(root) == match Resolve(root, TextPath)
                              case Thrown => NavThrown
                              case Missing => Absent
                              case Got(leaf) => GetString(leaf)
  {
  }

  /** The outcome of parsing a success body with `JsonDocument.Parse`. */
  datatype Document = Parsed(root: Json) | Malformed(message: string)

  /** The outcome of reading the image and posting the request. */
  datatype Exchange =
    | RequestFailed(message: string)  // an exception before a response arrived
    | Responded(status: int, statusName: string, body: string, doc: Document)
      // `statusName` is how the HttpStatusCode prints; `doc` is consulted only on success

  predicate IsSuccessStatusCode(status: int) { 200 <= status <= 299 }

  const ParseFailure: string := "Failed to parse API response"

  function ErrorText(message: string): string { "Error: " + message }

  function ApiErrorText(statusName: string, body: string): string {
    "API Error: " + statusName + " - " + body
  }

  /** The string `SendImageToGeminiAPI` returns; `None` is C# null. */
  function ApiReply(x: Exchange): Option<string> {
    match x
    case RequestFailed(m) => Some(ErrorText(m))
    case Responded(status, statusName, body, doc) =>
      if !IsSuccessStatusCode(status) then Some(ApiErrorText(statusName, body))
      else match doc
        case Malformed(m) => Some(ErrorText(m))
        case Parsed(root) =>
          match Navigate(root)
          case Text(s) => Some(s)
          case NullText => None
          case NavThrown => Some(ParseFailure)
          case Absent => Some(ApiErrorText(statusName, body))
  }

  /** Response selection stated against the reference resolver. */
  lemma ReplySelection(x: Exchange)
    ensures x.RequestFailed? ==> ApiReply(x) == Some(ErrorText(x.message))
    ensures x.Responded? && !IsSuccessStatusCode(x.status) ==>
              ApiReply(x) == Some(ApiErrorText(x.statusName, x.body))
    ensures x.Responded? && IsSuccessStatusCode(x.status) && x.doc.Malformed? ==>
              ApiReply(x) == Some(ErrorText(x.doc.message))
    ensures x.Responded? && IsSuccessStatusCode(x.status) && x.doc.Parsed? ==>
              match Resolve(x.doc.root, TextPath)
              case Got(JString(s)) => ApiReply(x) == Some(s)
              case Got(JNull) => ApiReply(x) == None
              case Got(_) => ApiReply(x) == Some(ParseFailure)
              case Thrown => ApiReply(x) == Some(ParseFailure)
              case Missing => ApiReply(x) == Some(ApiErrorText(x.statusName, x.body))
  {
  }

  /** The model's text is returned exactly when the status is a success and the
      text path leads to that string. */
  lemma ReplyIsModelText(status: int, statusName: string, body: string, root: Json, s: string)
    requires IsSuccessStatusCode(status)
    requires Resolve(root, TextPath) == Got(JString(s))
    ensures ApiReply(Responded(status, statusName, body, Parsed(root))) == Some(s)
  {
  }
}
