/** The entry point: the engine options given at construction, opening
    projects and requesting access grants. */
module Uplink {
  import opened Java
  import opened Native
  import ExceptionUtil
  import UplinkOption
  import Access
  import Project

  class Uplink {
    const options: seq<UplinkOption.UplinkOption>

    constructor(options: seq<UplinkOption.UplinkOption>)
      ensures this.options == options
    {
      this.options := options;
    }

    /** The open-project call: the plain one without options, the config one
        with the folded options otherwise. */
    ghost predicate OpensWith(c: Call, access: Handle)
      requires UplinkOption.NoneThrows(options)
    {
      if |options| == 0 then c == Native.OpenProject(access)
      else c == ConfigOpenProject(UplinkOption.Fold(options), access)
    }

    /** The request call: the plain one without options, the config one with
        the folded options otherwise. */
    ghost predicate RequestsWith(c: Call, satelliteAddress: string, apiKey: string, passphrase: string)
      requires UplinkOption.NoneThrows(options)
    {
      if |options| == 0 then c == Native.RequestAccessWithPassphrase(satelliteAddress, apiKey, passphrase)
      else c == ConfigRequestAccessWithPassphrase(UplinkOption.Fold(options), satelliteAddress, apiKey, passphrase)
    }

    /** `openProject(access)`: a null access is parsed as the empty string.
        The parse result is released exactly once, in the `finally` block,
        whatever fails after the parse: the open call's error and a null
        option alike. The project result is never released. */
    method OpenProject(access: Option<Access.Access>, parseReply: AccessResult, openReply: ProjectResult)
      returns (r: Result<Project.Project>, ghost trace: Trace)
      ensures WellFormed(trace) && |trace.calls| >= 1
      ensures trace.calls[0] == ParseAccess(if access.Some? then access.value.serializedAccess else "")
      ensures trace.frees[0] == 1
      ensures parseReply.error.Some? ==> r == Err(ExceptionUtil.Raise(parseReply.error.value)) && |trace.calls| == 1
      ensures parseReply.error.None? && !UplinkOption.NoneThrows(options) ==>
        r == Err(NullPointerException) && |trace.calls| == 1
      ensures parseReply.error.None? && UplinkOption.NoneThrows(options) ==>
        |trace.calls| == 2 && OpensWith(trace.calls[1], parseReply.access) && trace.frees[1] == 0 &&
        r.Ok? == openReply.error.None?
      ensures parseReply.error.None? && UplinkOption.NoneThrows(options) && openReply.error.Some? ==>
        r == Err(ExceptionUtil.Raise(openReply.error.value))
      ensures r.Ok? ==> fresh(r.value) && r.value.project == openReply.project
    {
      var serializedAccess := "";
      if access.Some? {
        serializedAccess := access.value.serializedAccess;
      }
      var failure: Option<Exception> := None;
      var internalAccess: Option<AccessResult> := None;
      trace := NoCalls;
      label attempt: {
        trace := Record(trace, ParseAccess(serializedAccess));
        internalAccess := Some(parseReply);
        var thrown := ExceptionUtil.HandleError(parseReply.error);
        if thrown.Some? {
          failure := thrown;
          break attempt;
        }
        if |options| == 0 {
          trace := Record(trace, Native.OpenProject(parseReply.access));
        } else {
          var config := UplinkOption.Internal(options);
          if config.Err? {
            failure := Some(config.error);
            break attempt;
          }
          trace := Record(trace, ConfigOpenProject(config.value, parseReply.access));
        }
        thrown := ExceptionUtil.HandleError(openReply.error);
        if thrown.Some? {
          failure := thrown;
          break attempt;
        }
      }
      // finally
      if internalAccess.Some? {
        trace := Release(trace, 0);
      }
      if failure.Some? {
        return Err(failure.value), trace;
      }
      var project := new Project.Project(openReply.project);
      r := Ok(project);
    }

    /** `requestAccessWithPassphrase`: a null option throws before any call;
        an error of the request is thrown without releasing its result;
        otherwise the new grant is serialized, and both results are released
        exactly once, in the `finally` block. */
    method RequestAccessWithPassphrase(satelliteAddress: string, apiKey: string, passphrase: string,
                                       requestReply: AccessResult, serializeReply: StringResult)
      returns (r: Result<Access.Access>, ghost trace: Trace)
      ensures !UplinkOption.NoneThrows(options) ==> r == Err(NullPointerException) && trace == NoCalls
      ensures UplinkOption.NoneThrows(options) ==>
        |trace.calls| >= 1 && RequestsWith(trace.calls[0], satelliteAddress, apiKey, passphrase)
      ensures UplinkOption.NoneThrows(options) && requestReply.error.Some? ==>
        r == Err(ExceptionUtil.Raise(requestReply.error.value)) && |trace.calls| == 1 && trace.frees == [0]
      ensures UplinkOption.NoneThrows(options) && requestReply.error.None? ==>
        |trace.calls| == 2 && trace.calls[1] == AccessSerialize(requestReply.access) && AllReleasedOnce(trace) &&
        r == (if serializeReply.error.Some? then Err(ExceptionUtil.Raise(serializeReply.error.value))
              else Ok(Access.Access(serializeReply.text)))
    {
      trace := NoCalls;
      if |options| == 0 {
        trace := Record(trace, Native.RequestAccessWithPassphrase(satelliteAddress, apiKey, passphrase));
      } else {
        var config := UplinkOption.Internal(options);
        if config.Err? {
          return Err(config.error), trace;
        }
        trace := Record(trace, ConfigRequestAccessWithPassphrase(config.value, satelliteAddress, apiKey, passphrase));
      }
      var thrown := ExceptionUtil.HandleError(requestReply.error);
      if thrown.Some? {
        return Err(thrown.value), trace;
      }
      trace := Record(trace, AccessSerialize(requestReply.access));
      label attempt: {
        thrown := ExceptionUtil.HandleError(serializeReply.error);
        if thrown.Some? {
          r := Err(thrown.value);
          break attempt;
        }
        r := Ok(Access.Access(serializeReply.text));
      }
      // finally
      trace := Release(trace, 0);
      trace := Release(trace, 1);
    }
  }
}
