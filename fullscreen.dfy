/** The fullscreen guard (src/hooks/useFullscreen.js): a strike counter incremented on
    every exit from fullscreen, forced submission at the second strike, and the
    `endingSessionRef` flag that silences the guard while the session is ending.
    The browser's fullscreen API is an input: whether it exists, whether the page is
    in fullscreen, and whether a request is granted. */
module Fullscreen {
  import opened Common
  import Proctoring

  /** Exits allowed before submission is forced. */
  const StrikeLimit: nat := 2

  /** "Exited fullscreen (n/2)", the message logged with a strike. */
  function ExitMessage(strikes: nat): string {
    "Exited fullscreen (" + NatToString(strikes) + "/2)"
  }

  /** The warning shown for the `strikes`-th exit. */
  function ExitWarning(strikes: nat): (w: Warning)
    ensures strikes >= StrikeLimit <==> w.title == "Exam ended"
  {
    if strikes >= StrikeLimit then
      Warning("Exam ended", "Exam submitted because fullscreen was exited twice.")
    else
      Warning("Fullscreen warning", "Return to fullscreen to continue. Warning " + NatToString(strikes) + "/2.")
  }

  const DeniedWarning := Warning("Fullscreen blocked", "Allow fullscreen access to continue the exam.")

  class FullscreenGuard {
    /** The proctoring log that `registerIncident` appends to. */
    const log: Proctoring.ProctoringLog
    /** `fullscreenWarningCountRef.current`. */
    var strikes: nat
    /** `endingSessionRef.current`. */
    var ending: bool

    constructor (log: Proctoring.ProctoringLog)
      ensures this.log == log && strikes == 0 && !ending
    {
      this.log := log;
      strikes, ending := 0, false;
    }

    /** Sets `endingSessionRef.current`, as the orchestrator does around submission. */
    method SetEnding(value: bool)
      modifies this`ending
      ensures ending == value
    {
      ending := value;
    }

    /** `enterFullscreen(resetCount, logFailure)`. Without the request API nothing
        happens. Already in fullscreen, or once the request is granted, the counter is
        reset when `resetCount` is set. A denied request warns and, only with
        `logFailure`, logs `fullscreen_denied`; it never touches the counter. */
    method EnterFullscreen(resetCount: bool, logFailure: bool, apiAvailable: bool, isFullscreen: bool, granted: bool, now: int)
      returns (warning: Option<Warning>)
      modifies this`strikes, log`incidents
      ensures !apiAvailable ==> strikes == old(strikes) && log.incidents == old(log.incidents) && warning == None
      ensures apiAvailable && (isFullscreen || granted) ==>
        strikes == (if resetCount then 0 else old(strikes)) && log.incidents == old(log.incidents) && warning == None
      ensures apiAvailable && !isFullscreen && !granted ==>
        && strikes == old(strikes) && warning == Some(DeniedWarning)
        && log.incidents == old(log.incidents) +
             (if logFailure then [Proctoring.Incident("fullscreen_denied", "", Some(now), Some("Fullscreen request denied"))] else [])
    {
      warning := None;
      if !apiAvailable {
        return;
      }
      if isFullscreen || granted {
        if resetCount {
          strikes := 0;
        }
        return;
      }
      warning := Some(DeniedWarning);
      if logFailure {
        var _ := log.RegisterIncident("fullscreen_denied", Proctoring.Payload(Some(now), Some("Fullscreen request denied")), "");
      }
    }

    /** `handleFullscreenExit`. Ignored while ending or while still in fullscreen.
        Otherwise one strike is added and one `fullscreen_exit` incident logged; the
        second strike warns and forces submission, an earlier one warns and asks the
        caller to re-request fullscreen without resetting the counter. */
    method HandleFullscreenExit(isFullscreen: bool, now: int)
      returns (warning: Option<Warning>, forceSubmit: bool, reRequest: bool)
      modifies this`strikes, log`incidents
      ensures old(ending) || isFullscreen ==>
        strikes == old(strikes) && log.incidents == old(log.incidents)
        && warning == None && !forceSubmit && !reRequest
      ensures !old(ending) && !isFullscreen ==>
        && strikes == old(strikes) + 1
        && log.incidents == old(log.incidents) + [Proctoring.Incident("fullscreen_exit", "", Some(now), Some(ExitMessage(strikes)))]
        && warning == Some(ExitWarning(strikes))
        && forceSubmit == (strikes >= StrikeLimit)
        && reRequest == !forceSubmit
    {
      warning, forceSubmit, reRequest := None, false, false;
      if ending || isFullscreen {
        return;
      }
      var next := strikes + 1;
      strikes := next;
      var _ := log.RegisterIncident("fullscreen_exit", Proctoring.Payload(Some(now), Some(ExitMessage(next))), "");
      warning := Some(ExitWarning(next));
      if next >= StrikeLimit {
        forceSubmit := true;
      } else {
        reRequest := true;
      }
    }
  }

  /** From a fresh start, the first exit warns and re-prompts, the second forces
      submission; both are logged. */
  method TwoExitsForceSubmission() returns (firstForces: bool, firstReRequests: bool, secondForces: bool, logged: nat)
    ensures !firstForces && firstReRequests
    ensures secondForces
    ensures logged == 2
  {
    var log := new Proctoring.ProctoringLog("s1");
    var guard := new FullscreenGuard(log);
    var _ := guard.EnterFullscreen(true, true, true, false, true, 0);
    var _, f1, r1 := guard.HandleFullscreenExit(false, 1000);
    var _, f2, _ := guard.HandleFullscreenExit(false, 2000);
    firstForces, firstReRequests, secondForces, logged := f1, r1, f2, |log.incidents|;
  }

  /** While the session is ending, exits are not counted and nothing is logged. */
  method EndingSilencesGuard() returns (forced: bool, strikes: nat, logged: nat)
    ensures !forced && strikes == 0 && logged == 0
  {
    var log := new Proctoring.ProctoringLog("s1");
    var guard := new FullscreenGuard(log);
    guard.SetEnding(true);
    var _, f, _ := guard.HandleFullscreenExit(false, 1000);
    forced, strikes, logged := f, guard.strikes, |log.incidents|;
  }
}
