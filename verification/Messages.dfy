/** Result types shared by every component. */
module Wrappers {
  datatype Option<+T> = None | Some(value: T)

  datatype Result<+T, +E> = Ok(value: T) | Err(error: E)
}

/** The messages that cross the boundary between the UI thread, the broker and the worker. */
module Messages {
  import opened Wrappers

  /** A value of the document language; nothing here looks inside one. */
  type Value(==, !new)

  /** Everything in a reload payload besides the endpoint table and the domain. */
  type Document(==, !new)

  type TabId = nat

  type Symbol = nat

  datatype EndpointKind = Api | Media

  datatype UrlEndpoint = UrlEndpoint(kind: EndpointKind, rawTarget: string)

  type UrlRegistry = map<Symbol, UrlEndpoint>

  datatype NetworkMethod = Get | Post | Put | Delete | Query {
    function AsStr(): string {
      match this
      case Get => "GET"
      case Post => "POST"
      case Put => "PUT"
      case Delete => "DELETE"
      case Query => "QUERY"
    }
  }

  datatype PayloadFormat = Json | Form | Text | Yaml | Multipart

  datatype RuntimeAction =
    | NoAction
    | NetworkCall(verb: NetworkMethod, endpointSymbol: Symbol, payload: Option<Value>,
                  pathParam: Option<string>, targetVariable: Symbol,
                  format: PayloadFormat, headers: seq<(string, Value)>)
    | ResolvedCall(methodName: string, url: string, payload: Option<Value>,
                   targetVariable: Symbol, format: PayloadFormat, headers: seq<(string, Value)>)
    | StoreLocal(key: string, value: Value)
    | CopyToClipboard(nodeId: string)
    | GetSystemTime(targetVariable: Symbol)
    | Navigate(url: string)
    | DownloadMedia(url: string)
    | DownloadAlias(endpointSymbol: Symbol)

  datatype ReloadPayload = ReloadPayload(document: Document, urlRegistry: UrlRegistry, documentDomain: string)

  datatype UiEvent =
    | Click(nodeId: nat)
    | RootTimer(index: nat)
    | SubmitForm(submitterNodeId: nat, fields: map<string, Value>)
    | UpdateVariable(name: string, value: Value)
    | Reload(payload: ReloadPayload)
    | CloseTab

  datatype WorkerResponse = WorkerResponse(mutatedVariables: seq<(Symbol, Value)>,
                                           runtimeActions: seq<RuntimeAction>, gesture: bool)

  /** Why the broker refused an action. */
  datatype Refusal =
    | PreResolvedCall(url: string)
    | PreResolvedDownload(url: string)
    | UnknownAlias(alias: Symbol)
    | NavigateWithoutGesture(url: string)

  datatype MizuError =
    | SecurityViolation(refusal: Refusal)
    | ExecutionError(detail: string)
    | IpcError(detail: string)
}
