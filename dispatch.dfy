/** `main`: read one JSON request and route it by its `action` key to one
    of five handlers. */
module Dispatch {
  import opened Wrappers
  import opened Protocol

  datatype Action = Check | Enroll | Identify | List | Delete

  /** The `action` string that selects each handler. */
  function ActionName(a: Action): string {
    match a
    case Check => "check"
    case Enroll => "enroll"
    case Identify => "identify"
    case List => "list"
    case Delete => "delete"
  }

  /** Standard input as routing sees it: empty or only whitespace, not
      valid JSON, or a JSON object with its `action` field. */
  datatype Input = Blank | Malformed | Request(action: JsonStr)

  const DefaultAction := "check"

  /** The handler for a key of the `actions` table, if any. */
  function Handler(key: JsonStr): Option<Action> {
    if key == Str("check") then Some(Check)
    else if key == Str("enroll") then Some(Enroll)
    else if key == Str("identify") then Some(Identify)
    else if key == Str("list") then Some(List)
    else if key == Str("delete") then Some(Delete)
    else None
  }

  /** The handler `main` calls, or the error it reports. */
  function Route(input: Input): (r: Result<Action, ErrorKind>)
    ensures input.Blank? ==> r == Err(InputError)
    ensures input.Malformed? ==> r == Err(JsonError)
    ensures r.Ok? ==> input.Request? && Get(input.action, Str(DefaultAction)) == Str(ActionName(r.value))
    ensures r.Err? && input.Request? ==> r.error == UnknownAction
  {
    match input
    case Blank => Err(InputError)
    case Malformed => Err(JsonError)
    case Request(a) =>
      match Handler(Get(a, Str(DefaultAction)))
      case Some(h) => Ok(h)
      case None => Err(UnknownAction)
  }

  /** Each action's name selects that action, and a request without an
      `action` key is a `check`. */
  lemma RouteSelectsNamedAction(a: Action)
    ensures Route(Request(Str(ActionName(a)))) == Ok(a)
    ensures Route(Request(Missing)) == Ok(Check)
  {
  }

  /** Any other action value, `null` included, is `unknown_action`. */
  lemma RouteRejectsOthers(key: JsonStr)
    requires key != Missing
    requires forall a :: key != Str(ActionName(a))
    ensures Route(Request(key)) == Err(UnknownAction)
  {
  }
}
