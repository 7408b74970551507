/** The argument guards of the JS API (www/wearable.js): the state calls check their key or
    JSON Pointer before anything reaches the native side. A JS argument is a `Json` value
    (a JS string is `JStr`), each callback argument is only whether it is a function, and a
    call's `Outcome` is what it did. */
module WearableJs {
  import opened Json

  /** The `ACTIONS` names of the state calls. */
  const ActionSetState := "setState"
  const ActionRemoveState := "removeState"
  const ActionGetState := "getState"
  const ActionHasState := "hasState"
  const ActionSetStatePath := "setStatePath"
  const ActionRemoveStatePath := "removeStatePath"

  /** Whether the caller chose callbacks (a success function was passed) or a Promise. */
  datatype Style = CallbackStyle | PromiseStyle

  datatype Outcome =
    /** A rejected guard in callback style: only `error(msg)` ran; the call returned undefined. */
    | ErrorCallback(msg: string)
    /** A rejected guard in callback style without an error function: nothing ran. */
    | Silent
    /** A rejected guard without callbacks: `Promise.reject(new Error(msg))`. */
    | Rejected(msg: string)
    /** `cordova.exec(…, action, args)`, through `_execPromise`. */
    | Exec(action: string, args: seq<Json>, style: Style)

  /** The key guard: a non-empty string. */
  predicate IsValidKey(key: Json) {
    key.JStr? && |key.s| > 0
  }

  /** The JSON Pointer guard: a non-empty string whose first character is `/`. */
  predicate IsValidPointer(p: Json) {
    p.JStr? && |p.s| > 0 && p.s[0] == '/'
  }

  /** `_execPromise`: callback style exactly when `success` is a function. */
  function ExecPromise(action: string, args: seq<Json>, success: bool): (r: Outcome)
    ensures r.Exec? && r.action == action && r.args == args
    ensures r.style == CallbackStyle <==> success
  {
    Exec(action, args, if success then CallbackStyle else PromiseStyle)
  }

  /** A failed guard: callback style when either argument is a function, and then only
      `error` runs (if it is one); a rejected Promise otherwise. */
  function Rejection(msg: string, success: bool, error: bool): (r: Outcome)
    ensures r.ErrorCallback? <==> error
    ensures r.Rejected? <==> !success && !error
    ensures !r.Exec? && (r.ErrorCallback? || r.Rejected? ==> r.msg == msg)
  {
    if success || error then
      if error then ErrorCallback(msg) else Silent
    else
      Rejected(msg)
  }

  /** The shape every guarded call shares. */
  function Guarded(valid: bool, msg: string, action: string, args: seq<Json>, success: bool, error: bool): Outcome {
    if !valid then Rejection(msg, success, error) else ExecPromise(action, args, success)
  }

  /** `setState(key, value, success, error)`. */
  function SetState(key: Json, value: Json, success: bool, error: bool): (r: Outcome)
    ensures r.Exec? <==> IsValidKey(key)
    ensures r.Exec? ==> r == ExecPromise(ActionSetState, [key, value], success)
    ensures !r.Exec? ==> r == Rejection("setState requires a non-empty string key", success, error)
  {
    Guarded(IsValidKey(key), "setState requires a non-empty string key", ActionSetState, [key, value], success, error)
  }

  /** `removeState(key, success, error)`. */
  function RemoveState(key: Json, success: bool, error: bool): (r: Outcome)
    ensures r.Exec? <==> IsValidKey(key)
    ensures r.Exec? ==> r == ExecPromise(ActionRemoveState, [key], success)
    ensures !r.Exec? ==> r == Rejection("removeState requires a non-empty string key", success, error)
  {
    Guarded(IsValidKey(key), "removeState requires a non-empty string key", ActionRemoveState, [key], success, error)
  }

  /** `getState(key, success, error)`. */
  function GetState(key: Json, success: bool, error: bool): (r: Outcome)
    ensures r.Exec? <==> IsValidKey(key)
    ensures r.Exec? ==> r == ExecPromise(ActionGetState, [key], success)
    ensures !r.Exec? ==> r == Rejection("getState requires a non-empty string key", success, error)
  {
    Guarded(IsValidKey(key), "getState requires a non-empty string key", ActionGetState, [key], success, error)
  }

  /** `hasState(key, success, error)`. */
  function HasState(key: Json, success: bool, error: bool): (r: Outcome)
    ensures r.Exec? <==> IsValidKey(key)
    ensures r.Exec? ==> r == ExecPromise(ActionHasState, [key], success)
    ensures !r.Exec? ==> r == Rejection("hasState requires a non-empty string key", success, error)
  {
    Guarded(IsValidKey(key), "hasState requires a non-empty string key", ActionHasState, [key], success, error)
  }

  /** `setStatePath(jsonPointer, value, success, error)`. */
  function SetStatePath(pointer: Json, value: Json, success: bool, error: bool): (r: Outcome)
    ensures r.Exec? <==> IsValidPointer(pointer)
    ensures r.Exec? ==> r == ExecPromise(ActionSetStatePath, [pointer, value], success)
    ensures !r.Exec? ==> r == Rejection("setStatePath requires a JSON Pointer string beginning with /", success, error)
  {
    Guarded(IsValidPointer(pointer), "setStatePath requires a JSON Pointer string beginning with /",
            ActionSetStatePath, [pointer, value], success, error)
  }

  /** `removeStatePath(jsonPointer, success, error)`. */
  function RemoveStatePath(pointer: Json, success: bool, error: bool): (r: Outcome)
    ensures r.Exec? <==> IsValidPointer(pointer)
    ensures r.Exec? ==> r == ExecPromise(ActionRemoveStatePath, [pointer], success)
    ensures !r.Exec? ==> r == Rejection("removeStatePath requires a JSON Pointer string beginning with /", success, error)
  {
    Guarded(IsValidPointer(pointer), "removeStatePath requires a JSON Pointer string beginning with /",
            ActionRemoveStatePath, [pointer], success, error)
  }

  /** A rejected call never reaches the native side, never runs `success`, and runs `error`
      exactly when callbacks are used and `error` is a function. */
  lemma RejectionsStayInJs(key: Json, pointer: Json, value: Json, success: bool, error: bool)
    requires !IsValidKey(key) && !IsValidPointer(pointer)
    ensures var outcomes := [SetState(key, value, success, error), RemoveState(key, success, error),
                             GetState(key, success, error), HasState(key, success, error),
                             SetStatePath(pointer, value, success, error), RemoveStatePath(pointer, success, error)];
            forall i :: 0 <= i < |outcomes| ==>
              !outcomes[i].Exec?
              && (outcomes[i].ErrorCallback? <==> error)
              && (outcomes[i].Rejected? <==> !success && !error)
  {
  }

  /** Every pointer the path calls accept is a key the key calls accept, but not the reverse:
      `"a"` is a valid key and not a valid pointer. */
  lemma PointersAreKeys(p: Json)
    ensures IsValidPointer(p) ==> IsValidKey(p)
    ensures IsValidKey(JStr("a")) && !IsValidPointer(JStr("a"))
  {
  }

  /** The rejections the test suite expects: an empty key, an empty pointer and a pointer
      without its leading slash, each a rejected Promise when no callback is given, while
      `"/a"` and `"k"` go through. */
  lemma SuiteExamples(value: Json)
    ensures SetState(JStr(""), value, false, false) == Rejected("setState requires a non-empty string key")
    ensures GetState(JStr(""), false, false).Rejected? && RemoveState(JStr(""), false, false).Rejected?
    ensures SetStatePath(JStr("invalid/path"), value, false, false).Rejected?
    ensures SetStatePath(JStr(""), value, false, false).Rejected?
    ensures SetStatePath(JStr("/a"), value, false, false) == Exec(ActionSetStatePath, [JStr("/a"), value], PromiseStyle)
    ensures SetState(JStr("k"), value, true, true) == Exec(ActionSetState, [JStr("k"), value], CallbackStyle)
    ensures SetState(JNum(1), value, false, false).Rejected? && SetStatePath(JNull, value, false, false).Rejected?
  {
    assert "invalid/path"[0] == 'i';
  }

  /** The two styles are decided differently: a caller passing only `error` gets `error(msg)`
      for a bad key but a Promise for a good one. */
  lemma ErrorOnlyCallers(key: Json, value: Json)
    ensures !IsValidKey(key) ==> SetState(key, value, false, true).ErrorCallback?
    ensures IsValidKey(key) ==> SetState(key, value, false, true).style == PromiseStyle
  {
  }
}
