/**
 * The process-wide control values of both streaming apps (`current_mode`,
 * `brightness`, `contrast`, `saturation`) and the two control routes that
 * overwrite them, `/set_mode/<mode>` and `/set_param/<param>/<value>`.
 *
 * Python's `float(value)` is kept abstract: the routes receive it as a
 * function `parse` that either yields a real or fails (raises).
 */
module Controls {
  import opened Common

  /** A snapshot of the four control globals. */
  datatype Settings = Settings(mode: string, brightness: real, contrast: real, saturation: real)

  /** Start-up values: mode "normal", every colour factor 1.0. */
  const InitialSettings := Settings("normal", 1.0, 1.0, 1.0)

  /** What a control route answers: the empty 204 reply, or the ValueError raised by `float`. */
  datatype Status = NoContent | ValueError

  /** The three parameter names `set_param` recognises. */
  predicate IsKnownParam(name: string) {
    name == "brightness" || name == "contrast" || name == "saturation"
  }

  /** The value of the known parameter `name` in `s`. */
  function Param(s: Settings, name: string): real
    requires IsKnownParam(name)
  {
    if name == "brightness" then s.brightness
    else if name == "contrast" then s.contrast
    else s.saturation
  }

  /**
   * The settings after `set_param(param, value)` where `parsed` is the
   * outcome of `float(value)`: a failed parse aborts before any assignment,
   * an unknown name is ignored, a known name receives the parsed value.
   */
  function ApplyParam(s: Settings, param: string, parsed: Option<real>): (r: Settings)
    ensures r.mode == s.mode
    ensures forall name | IsKnownParam(name) ::
      Param(r, name) == if name == param && parsed.Some? then parsed.value else Param(s, name)
    ensures parsed.None? || !IsKnownParam(param) ==> r == s
  {
    match parsed
    case None => s
    case Some(v) =>
      if param == "brightness" then s.(brightness := v)
      else if param == "contrast" then s.(contrast := v)
      else if param == "saturation" then s.(saturation := v)
      else s
  }

  /** The reply of `set_param`: 204 whenever `float(value)` succeeded, whatever the name. */
  function ParamStatus(parsed: Option<real>): (st: Status)
    ensures st == NoContent <==> parsed.Some?
  {
    if parsed.Some? then NoContent else ValueError
  }

  /** A control request as it arrives over HTTP. */
  datatype Request = ModeRequest(mode: string) | ParamRequest(param: string, value: string)

  /** The settings after serving one request. */
  function Serve(s: Settings, req: Request, parse: string -> Option<real>): Settings {
    match req
    case ModeRequest(m) => s.(mode := m)
    case ParamRequest(p, v) => ApplyParam(s, p, parse(v))
  }

  /** The settings after serving `reqs` in order, starting from `s`. */
  function ServeAll(s: Settings, reqs: seq<Request>, parse: string -> Option<real>): Settings
    decreases |reqs|
  {
    if reqs == [] then s
    else Serve(ServeAll(s, reqs[..|reqs| - 1], parse), reqs[|reqs| - 1], parse)
  }

  /** The value of the last request in `reqs` that successfully set parameter `name`, if any. */
  function LastWrite(reqs: seq<Request>, name: string, parse: string -> Option<real>): Option<real>
    decreases |reqs|
  {
    if reqs == [] then None
    else
      var last := reqs[|reqs| - 1];
      if last.ParamRequest? && last.param == name && parse(last.value).Some? then parse(last.value)
      else LastWrite(reqs[..|reqs| - 1], name, parse)
  }

  /** The mode named by the last mode request in `reqs`, if any. */
  function LastMode(reqs: seq<Request>): Option<string>
    decreases |reqs|
  {
    if reqs == [] then None
    else if reqs[|reqs| - 1].ModeRequest? then Some(reqs[|reqs| - 1].mode)
    else LastMode(reqs[..|reqs| - 1])
  }

  /**
   * Every parameter is set independently: after any sequence of requests it
   * holds the value of the last request that successfully set it, and its
   * initial value if there was none. Failed parses and other names never
   * disturb it.
   */
  lemma {:induction false} ServeAllParam(s: Settings, reqs: seq<Request>, name: string, parse: string -> Option<real>)
    requires IsKnownParam(name)
    ensures Param(ServeAll(s, reqs, parse), name) == LastWrite(reqs, name, parse).GetOr(Param(s, name))
    decreases |reqs|
  {
    if reqs != [] {
      ServeAllParam(s, reqs[..|reqs| - 1], name, parse);
    }
  }

  /** The mode is the string of the last mode request, verbatim, whatever it is. */
  lemma {:induction false} ServeAllMode(s: Settings, reqs: seq<Request>, parse: string -> Option<real>)
    ensures ServeAll(s, reqs, parse).mode == LastMode(reqs).GetOr(s.mode)
    decreases |reqs|
  {
    if reqs != [] {
      ServeAllMode(s, reqs[..|reqs| - 1], parse);
    }
  }

  /** The control globals, updated in place by the two routes. */
  class ControlStore {
    var currentMode: string
    var brightness: real
    var contrast: real
    var saturation: real

    /** The four globals as one value. */
    function Snapshot(): Settings
      reads this
    {
      Settings(currentMode, brightness, contrast, saturation)
    }

    constructor ()
      ensures Snapshot() == InitialSettings
    {
      currentMode := "normal";
      brightness := 1.0;
      contrast := 1.0;
      saturation := 1.0;
    }

    /** `set_mode(mode)`: stores the string verbatim, no validation, answers 204. */
    method SetMode(mode: string) returns (status: Status)
      modifies this
      ensures currentMode == mode
      ensures brightness == old(brightness) && contrast == old(contrast) && saturation == old(saturation)
      ensures status == NoContent
    {
      currentMode := mode;
      status := NoContent;
    }

    /**
     * `set_param(param, value)`: parses first; on failure nothing is
     * assigned and the ValueError escapes; otherwise exactly the named known
     * field is overwritten (an unknown name changes nothing) and 204 is returned.
     */
    method SetParam(param: string, value: string, parse: string -> Option<real>) returns (status: Status)
      modifies this
      ensures Snapshot() == ApplyParam(old(Snapshot()), param, parse(value))
      ensures Snapshot() == Serve(old(Snapshot()), ParamRequest(param, value), parse)
      ensures status == ParamStatus(parse(value))
    {
      var parsed := parse(value);
      if parsed.None? {
        return ValueError;
      }
      var v := parsed.value;
      if param == "brightness" {
        brightness := v;
      } else if param == "contrast" {
        contrast := v;
      } else if param == "saturation" {
        saturation := v;
      }
      status := NoContent;
    }
  }
}
