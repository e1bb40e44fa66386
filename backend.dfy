/**
 * The plugin's remote operations (`Plugin` in main.py): the allowlist gate,
 * `get_services`, `get_service_status`, `set_service_running` and
 * `set_service_enabled`.
 *
 * Every `systemctl` invocation goes through an oracle `sys`: given the
 * commands issued so far in this session and a new argument list, it yields
 * that invocation's reply.  Each operation records the commands it issues, in
 * order, in the trace it returns after the `done` it was handed.
 */
module Backend {
  import opened Results
  import opened Text
  import opened UnitName
  import opened KvParse
  import opened Status

  /** The `systemctl` verbs the backend uses. */
  datatype Verb = Show | Start | Stop | Enable | Disable | Unmask

  function VerbName(v: Verb): string
  {
    match v
    case Show => "show"
    case Start => "start"
    case Stop => "stop"
    case Enable => "enable"
    case Disable => "disable"
    case Unmask => "unmask"
  }

  /** One `systemctl` invocation on one unit. */
  datatype Cmd = Cmd(verb: Verb, unit: string)

  /** The argument list the invocation passes after `systemctl --no-pager`. */
  function Args(c: Cmd): (args: seq<string>)
    ensures 2 <= |args| && args[0] == VerbName(c.verb) && args[1] == c.unit
    ensures c.verb == Show ==> args == [VerbName(Show), c.unit, "--property=LoadState,ActiveState,SubState,UnitFileState,Description"]
    ensures c.verb != Show ==> |args| == 2
  {
    if c.verb == Show then [VerbName(Show), c.unit, "--property=LoadState,ActiveState,SubState,UnitFileState,Description"]
    else [VerbName(c.verb), c.unit]
  }

  /**
   * Distinct commands have distinct argument lists, so an oracle answering
   * commands answers exactly the argument lists the backend passes.
   */
  lemma ArgsDetermineCmd(c1: Cmd, c2: Cmd)
    ensures Args(c1) == Args(c2) <==> c1 == c2
  {
    if Args(c1) == Args(c2) {
      assert VerbName(c1.verb) == VerbName(c2.verb);
    }
  }

  /**
   * The system's answer to a command, given the commands issued before it.
   * A command stands for its argument list (ArgsDetermineCmd).
   */
  type Oracle = (seq<Cmd>, Cmd) -> Reply

  /** `ValueError` for refused arguments, `SystemctlError` for failed commands. */
  datatype Error = ValueError(msg: string) | SystemctlError(msg: string)

  /** An allowlist entry: the unit and an optional display label (`label` is a Dafny keyword). */
  datatype Entry = Entry(unit: string, displayLabel: Option<string>)

  /** A `get_services` row: the status record plus its display label. */
  datatype ServiceInfo = ServiceInfo(displayLabel: string, status: ServiceStatus)

  const NotAllowlisted := "unit is not allowlisted"
  const StaticUnit := "unit is static and cannot be enabled/disabled"

  const DefaultUnits: seq<Entry> := [
    Entry("sshd.service", Some("SSH Server")),
    Entry("bluetooth.service", Some("Bluetooth"))
  ]

  function AllowedUnits(): seq<Entry>
  {
    DefaultUnits
  }

  /** `_is_allowed`: the name is the unit of some allowlist entry. */
  predicate IsAllowed(unit: string)
  {
    unit in (set e | e in AllowedUnits() :: e.unit)
  }

  /** Normalisation followed by the allowlist check, as the three operations that take a unit name start. */
  function Gate(unit: string): Result<string, Error>
  {
    match Normalize(unit)
    case Err(msg) => Err(ValueError(msg))
    case Ok(u) => if IsAllowed(u) then Ok(u) else Err(ValueError(NotAllowlisted))
  }

  function ShowCmd(unit: string): Cmd
  {
    Cmd(Show, unit)
  }

  /** The message of a failed command: stderr, else stdout, else a fixed text naming the verb. */
  function FailureMessage(rep: Reply, verb: Verb): (msg: string)
    ensures msg != ""
    ensures msg == rep.err || msg == rep.out || msg == "systemctl " + VerbName(verb) + " failed"
    ensures rep.err != "" ==> msg == rep.err
    ensures rep.err == "" && rep.out != "" ==> msg == rep.out
  {
    if rep.err != "" then rep.err
    else if rep.out != "" then rep.out
    else "systemctl " + VerbName(verb) + " failed"
  }

  /** How a sequence of mutating commands ends. */
  datatype ScriptOutcome =
    | Completed(trace: seq<Cmd>)
    | Aborted(trace: seq<Cmd>, failed: Cmd, reply: Reply)

  /**
   * Issue `cmds` in order after `done`, stopping at the first with a non-zero
   * exit status: the trace extends `done` by at most the script's commands, a
   * completed run issued all of them, and an aborted one ends with the failing
   * command, whose reply to the commands before it is non-zero.
   */
  function RunScript(sys: Oracle, done: seq<Cmd>, cmds: seq<Cmd>): (r: ScriptOutcome)
    ensures done <= r.trace && |r.trace| <= |done| + |cmds|
    ensures r.Completed? ==> r.trace == done + cmds
    ensures r.Aborted? ==>
      && |done| < |r.trace| && r.trace[|r.trace| - 1] == r.failed
      && r.reply == sys(r.trace[..|r.trace| - 1], r.failed) && r.reply.rc != 0
    decreases |cmds|
  {
    if cmds == [] then Completed(done)
    else
      var rep := sys(done, cmds[0]);
      if rep.rc != 0 then Aborted(done + [cmds[0]], cmds[0], rep)
      else RunScript(sys, done + [cmds[0]], cmds[1..])
  }

  /** Command `i` of `cmds`, issued after `done` and the commands before it, succeeds. */
  predicate StepSucceeds(sys: Oracle, done: seq<Cmd>, cmds: seq<Cmd>, i: nat)
    requires i < |cmds|
  {
    sys(done + cmds[..i], cmds[i]).rc == 0
  }

  /** The first step at or after `from` that fails, or `|cmds|` when none does. */
  function FirstFailure(sys: Oracle, done: seq<Cmd>, cmds: seq<Cmd>, from: nat): (k: nat)
    requires from <= |cmds|
    ensures from <= k <= |cmds|
    ensures forall i :: from <= i < k ==> StepSucceeds(sys, done, cmds, i)
    ensures k < |cmds| ==> !StepSucceeds(sys, done, cmds, k)
    decreases |cmds| - from
  {
    if from == |cmds| || !StepSucceeds(sys, done, cmds, from) then from
    else FirstFailure(sys, done, cmds, from + 1)
  }

  /**
   * How a script whose first failing step is `k` ends: all commands issued when
   * none fails, otherwise the commands up to and including step `k`, with the
   * failing command and its reply.
   */
  function StopsAt(sys: Oracle, done: seq<Cmd>, cmds: seq<Cmd>, k: nat): ScriptOutcome
    requires k <= |cmds|
  {
    if k == |cmds| then Completed(done + cmds)
    else Aborted(done + cmds[..k + 1], cmds[k], sys(done + cmds[..k], cmds[k]))
  }

  /** A one-command script either fails on its command or completes with it. */
  lemma RunScriptOne(sys: Oracle, done: seq<Cmd>, c: Cmd)
    ensures RunScript(sys, done, [c]) ==
      if sys(done, c).rc != 0 then Aborted(done + [c], c, sys(done, c)) else Completed(done + [c])
  {
    assert [c][1..] == [];
  }

  /** A two-command script issues the second command only when the first succeeds. */
  lemma RunScriptTwo(sys: Oracle, done: seq<Cmd>, c1: Cmd, c2: Cmd)
    ensures RunScript(sys, done, [c1, c2]) ==
      if sys(done, c1).rc != 0 then Aborted(done + [c1], c1, sys(done, c1)) else RunScript(sys, done + [c1], [c2])
  {
    assert [c1, c2][1..] == [c2];
  }

  /** Running the suffix of a script from step `j` stops where the first failure at or after `j` is. */
  lemma {:induction false} RunScriptFrom(sys: Oracle, done: seq<Cmd>, cmds: seq<Cmd>, j: nat)
    requires j <= |cmds|
    ensures RunScript(sys, done + cmds[..j], cmds[j..]) == StopsAt(sys, done, cmds, FirstFailure(sys, done, cmds, j))
    decreases |cmds| - j
  {
    if j == |cmds| {
      assert cmds[j..] == [];
      assert cmds[..j] == cmds;
    } else {
      assert cmds[j..][0] == cmds[j];
      assert cmds[j..][1..] == cmds[j + 1..];
      assert done + cmds[..j] + [cmds[j]] == done + cmds[..j + 1];
      if StepSucceeds(sys, done, cmds, j) {
        RunScriptFrom(sys, done, cmds, j + 1);
      }
    }
  }

  /**
   * A script stops right after its first failing command: everything before
   * it succeeded, nothing after it was issued, and the failing command and its
   * reply are reported; with no failing command it completes, having issued
   * every command in order.
   */
  lemma RunScriptStops(sys: Oracle, done: seq<Cmd>, cmds: seq<Cmd>)
    ensures RunScript(sys, done, cmds) == StopsAt(sys, done, cmds, FirstFailure(sys, done, cmds, 0))
  {
    RunScriptFrom(sys, done, cmds, 0);
    assert done + cmds[..0] == done;
    assert cmds[0..] == cmds;
  }

  /** A script runs to completion exactly when every one of its commands succeeds. */
  lemma RunScriptCompletes(sys: Oracle, done: seq<Cmd>, cmds: seq<Cmd>)
    ensures RunScript(sys, done, cmds).Completed? <==>
      forall i :: 0 <= i < |cmds| ==> StepSucceeds(sys, done, cmds, i)
    ensures RunScript(sys, done, cmds).Completed? ==> RunScript(sys, done, cmds).trace == done + cmds
  {
    RunScriptStops(sys, done, cmds);
  }

  /**
   * Following a plan of mutating commands after `done`: the error that stops
   * it, if any (a refused plan, or the message of the first failing command),
   * and the commands issued.
   */
  function Execute(sys: Oracle, done: seq<Cmd>, plan: Result<seq<Cmd>, Error>): (run: (Option<Error>, seq<Cmd>))
    ensures done <= run.1
    ensures run.0.None? ==> plan.Ok? && run.1 == done + plan.value
    ensures plan.Err? ==> run == (Some(plan.error), done)
  {
    match plan
    case Err(e) => (Some(e), done)
    case Ok(cmds) =>
      match RunScript(sys, done, cmds)
      case Aborted(t, failed, rep) => (Some(SystemctlError(FailureMessage(rep, failed.verb))), t)
      case Completed(t) => (None, t)
  }

  /** What an operation returns after its mutating commands: their error, or a fresh status of `unit`. */
  function Report(sys: Oracle, unit: string, run: (Option<Error>, seq<Cmd>)): (out: (Result<ServiceStatus, Error>, seq<Cmd>))
    ensures out.0.Ok? <==> run.0.None?
    ensures out.0.Err? ==> out == (Err(run.0.value), run.1)
    ensures out.0.Ok? ==> out.0.value.unit == unit && out.1 == run.1 + [ShowCmd(unit)]
  {
    match run.0
    case Some(e) => (Err(e), run.1)
    case None => (Ok(StatusFromShow(unit, sys(run.1, ShowCmd(unit)))), run.1 + [ShowCmd(unit)])
  }

  /** The command `set_service_running` issues. */
  function RunningCmd(unit: string, running: bool): (c: Cmd)
    ensures c.unit == unit && (c.verb == Start <==> running) && (c.verb == Stop <==> !running)
  {
    Cmd(if running then Start else Stop, unit)
  }

  /**
   * The mutating commands `set_service_enabled` plans for a unit in the given
   * unit-file state: refused only when enabling a static unit; otherwise every
   * command names the unit and the plan ends with `enable` or `disable` as
   * asked, preceded by `unmask` exactly when enabling a masked unit.
   */
  function EnablePlan(unit: string, enabled: bool, unitFileState: string): (plan: Result<seq<Cmd>, Error>)
    ensures plan.Err? <==> enabled && unitFileState == "static"
    ensures plan.Err? ==> plan.error == SystemctlError(StaticUnit)
    ensures plan.Ok? ==>
      var cmds := plan.value;
      && 1 <= |cmds| <= 2
      && cmds[|cmds| - 1] == Cmd(if enabled then Enable else Disable, unit)
      && (|cmds| == 2 <==> enabled && unitFileState == "masked")
      && (|cmds| == 2 ==> cmds[0] == Cmd(Unmask, unit))
  {
    if enabled && unitFileState == "static" then Err(SystemctlError(StaticUnit))
    else if enabled && unitFileState == "masked" then Ok([Cmd(Unmask, unit), Cmd(Enable, unit)])
    else if enabled then Ok([Cmd(Enable, unit)])
    else Ok([Cmd(Disable, unit)])
  }

  /**
   * The outcome of `set_service_enabled` on an admitted unit: a `show` to learn
   * the unit-file state, then the plan for that state, then a fresh status.
   */
  function EnableOutcome(sys: Oracle, unit: string, enabled: bool, done: seq<Cmd>): (out: (Result<ServiceStatus, Error>, seq<Cmd>))
    ensures done + [ShowCmd(unit)] <= out.1
    ensures out.0.Ok? ==> out.0.value.unit == unit && out.1[|out.1| - 1] == ShowCmd(unit)
  {
    var fileState := StatusFromShow(unit, sys(done, ShowCmd(unit))).unitFileState;
    Report(sys, unit, Execute(sys, done + [ShowCmd(unit)], EnablePlan(unit, enabled, fileState)))
  }

  /**
   * `_get_unit_status`: a refused name, or the status derived from one `show`
   * of the normalised name.
   */
  function UnitStatus(sys: Oracle, done: seq<Cmd>, unit: string): (out: (Result<ServiceStatus, Error>, seq<Cmd>))
    ensures out.0.Err? <==> Normalize(unit).Err?
    ensures out.0.Err? ==> out == (Err(ValueError(Normalize(unit).error)), done)
    ensures out.0.Ok? ==> out.0.value.unit == Normalize(unit).value && out.1 == done + [ShowCmd(out.0.value.unit)]
  {
    match Normalize(unit)
    case Err(msg) => (Err(ValueError(msg)), done)
    case Ok(u) => (Ok(StatusFromShow(u, sys(done, ShowCmd(u)))), done + [ShowCmd(u)])
  }

  /** `_get_unit_status`: normalise, issue one `show`, and derive the record from its reply. */
  method GetUnitStatus(unit: string, sys: Oracle, done: seq<Cmd>)
    returns (r: Result<ServiceStatus, Error>, trace: seq<Cmd>)
    ensures (r, trace) == UnitStatus(sys, done, unit)
  {
    var n := Normalize(unit);
    if n.Err? {
      return Err(ValueError(n.error)), done;
    }
    var u := n.value;
    var rep := sys(done, ShowCmd(u));
    trace := done + [ShowCmd(u)];
    if rep.rc != 0 && rep.out == "" {
      if Contains(rep.err, "not be found") || Contains(rep.err, NotFound) {
        return Ok(NotFoundStatus(u)), trace;
      }
    }
    var data := ParseKvLines(rep.out);
    r := Ok(DeriveStatus(u, data));
  }

  /** `get_service_status`: the gate, then the unit's status. */
  method GetServiceStatus(unit: string, sys: Oracle, done: seq<Cmd>)
    returns (r: Result<ServiceStatus, Error>, trace: seq<Cmd>)
    ensures Gate(unit).Err? ==> r == Err(Gate(unit).error) && trace == done
    ensures Gate(unit).Ok? ==>
      var u := Gate(unit).value;
      && trace == done + [ShowCmd(u)]
      && r == Ok(StatusFromShow(u, sys(done, ShowCmd(u))))
  {
    var n := Normalize(unit);
    if n.Err? {
      return Err(ValueError(n.error)), done;
    }
    var u := n.value;
    if !IsAllowed(u) {
      return Err(ValueError(NotAllowlisted)), done;
    }
    NormalizeIdempotent(unit);
    r, trace := GetUnitStatus(u, sys, done);
  }

  /** `set_service_running`: the gate, one `start` or `stop`, then the unit's status. */
  method SetServiceRunning(unit: string, running: bool, sys: Oracle, done: seq<Cmd>)
    returns (r: Result<ServiceStatus, Error>, trace: seq<Cmd>)
    ensures Gate(unit).Err? ==> r == Err(Gate(unit).error) && trace == done
    ensures Gate(unit).Ok? ==>
      var u := Gate(unit).value;
      (r, trace) == Report(sys, u, Execute(sys, done, Ok([RunningCmd(u, running)])))
  {
    var n := Normalize(unit);
    if n.Err? {
      return Err(ValueError(n.error)), done;
    }
    var u := n.value;
    if !IsAllowed(u) {
      return Err(ValueError(NotAllowlisted)), done;
    }
    var action := if running then Start else Stop;
    var rep := sys(done, Cmd(action, u));
    trace := done + [Cmd(action, u)];
    RunScriptOne(sys, done, Cmd(action, u));
    if rep.rc != 0 {
      return Err(SystemctlError(FailureMessage(rep, action))), trace;
    }
    NormalizeIdempotent(unit);
    r, trace := GetServiceStatus(u, sys, trace);
  }

  /**
   * `set_service_enabled`: the gate, a `show` to learn the unit-file state,
   * then the planned commands, then the unit's status.
   */
  method SetServiceEnabled(unit: string, enabled: bool, sys: Oracle, done: seq<Cmd>)
    returns (r: Result<ServiceStatus, Error>, trace: seq<Cmd>)
    ensures Gate(unit).Err? ==> r == Err(Gate(unit).error) && trace == done
    ensures Gate(unit).Ok? ==> (r, trace) == EnableOutcome(sys, Gate(unit).value, enabled, done)
  {
    var n := Normalize(unit);
    if n.Err? {
      return Err(ValueError(n.error)), done;
    }
    var u := n.value;
    if !IsAllowed(u) {
      return Err(ValueError(NotAllowlisted)), done;
    }
    NormalizeIdempotent(unit);
    var current, failure;
    current, trace := GetUnitStatus(u, sys, done);
    failure, trace := ApplyEnablePlan(u, enabled, current.value.unitFileState, sys, trace);
    if failure.Some? {
      return Err(failure.value), trace;
    }
    r, trace := GetServiceStatus(u, sys, trace);
  }

  /**
   * The mutating part of `set_service_enabled` once the unit-file state is
   * known: refuse to enable a static unit, unmask a masked one before enabling
   * it, and stop at the first failing command.
   */
  method ApplyEnablePlan(u: string, enabled: bool, fileState: string, sys: Oracle, done: seq<Cmd>)
    returns (failure: Option<Error>, trace: seq<Cmd>)
    ensures (failure, trace) == Execute(sys, done, EnablePlan(u, enabled, fileState))
  {
    trace := done;
    if enabled && fileState == "static" {
      return Some(SystemctlError(StaticUnit)), trace;
    }
    if enabled {
      if fileState == "masked" {
        var rep := sys(trace, Cmd(Unmask, u));
        trace := trace + [Cmd(Unmask, u)];
        RunScriptTwo(sys, done, Cmd(Unmask, u), Cmd(Enable, u));
        if rep.rc != 0 {
          return Some(SystemctlError(FailureMessage(rep, Unmask))), trace;
        }
      }
      var rep := sys(trace, Cmd(Enable, u));
      RunScriptOne(sys, trace, Cmd(Enable, u));
      trace := trace + [Cmd(Enable, u)];
      if rep.rc != 0 {
        return Some(SystemctlError(FailureMessage(rep, Enable))), trace;
      }
    } else {
      var rep := sys(trace, Cmd(Disable, u));
      RunScriptOne(sys, trace, Cmd(Disable, u));
      trace := trace + [Cmd(Disable, u)];
      if rep.rc != 0 {
        return Some(SystemctlError(FailureMessage(rep, Disable))), trace;
      }
    }
    failure := None;
  }

  /**
   * What following a plan of commands gives: the steps before the first
   * failing one all run, the failing one is the last command issued and its
   * reply supplies the error message; with no failing step every command is
   * issued and no error is reported.
   */
  lemma ExecuteStopsAtFirstFailure(sys: Oracle, done: seq<Cmd>, cmds: seq<Cmd>)
    ensures var k := FirstFailure(sys, done, cmds, 0);
      var run := Execute(sys, done, Ok(cmds));
      && (run.0 == None <==> k == |cmds|)
      && (k == |cmds| ==> run.1 == done + cmds)
      && (k < |cmds| ==>
            && run.1 == done + cmds[..k + 1]
            && run.0 == Some(SystemctlError(FailureMessage(sys(done + cmds[..k], cmds[k]), cmds[k].verb))))
  {
    RunScriptStops(sys, done, cmds);
  }

  /**
   * `set_service_running` on an admitted unit issues exactly one command,
   * `start` or `stop`; a non-zero exit status ends the call with that
   * command's failure message, otherwise a `show` follows and its status is
   * returned.
   */
  lemma RunningOutcome(sys: Oracle, unit: string, running: bool, done: seq<Cmd>)
    ensures var c := RunningCmd(unit, running);
      var out := Report(sys, unit, Execute(sys, done, Ok([c])));
      var rep := sys(done, c);
      && c.verb == (if running then Start else Stop)
      && (rep.rc != 0 ==> out == (Err(SystemctlError(FailureMessage(rep, c.verb))), done + [c]))
      && (rep.rc == 0 ==> out == (Ok(StatusFromShow(unit, sys(done + [c], ShowCmd(unit)))), done + [c, ShowCmd(unit)]))
  {
    var c := RunningCmd(unit, running);
    RunScriptOne(sys, done, c);
    assert done + [c] + [ShowCmd(unit)] == done + [c, ShowCmd(unit)];
  }

  /** Enabling a static unit is refused after the `show`, before any mutating command. */
  lemma EnableStaticRefused(sys: Oracle, unit: string, done: seq<Cmd>)
    requires StatusFromShow(unit, sys(done, ShowCmd(unit))).unitFileState == "static"
    ensures EnableOutcome(sys, unit, true, done) == (Err(SystemctlError(StaticUnit)), done + [ShowCmd(unit)])
  {
  }

  /**
   * Enabling a masked unit issues `unmask` first; `enable` is issued only
   * when `unmask` succeeded, and the call then ends as a plain enable would
   * after it.
   */
  lemma EnableMaskedUnmasksFirst(sys: Oracle, unit: string, done: seq<Cmd>)
    requires StatusFromShow(unit, sys(done, ShowCmd(unit))).unitFileState == "masked"
    ensures var probe := done + [ShowCmd(unit)];
      var unmask := Cmd(Unmask, unit);
      var out := EnableOutcome(sys, unit, true, done);
      && (sys(probe, unmask).rc != 0 ==>
            out == (Err(SystemctlError(FailureMessage(sys(probe, unmask), Unmask))), probe + [unmask]))
      && (sys(probe, unmask).rc == 0 ==>
            out == Report(sys, unit, Execute(sys, probe + [unmask], Ok([Cmd(Enable, unit)]))))
  {
    var probe := done + [ShowCmd(unit)];
    RunScriptTwo(sys, probe, Cmd(Unmask, unit), Cmd(Enable, unit));
  }

  /**
   * Enabling a unit that is neither static nor masked issues `enable` alone;
   * disabling issues `disable` alone, whatever the unit-file state, static
   * included.
   */
  lemma EnableSingleCommand(sys: Oracle, unit: string, enabled: bool, done: seq<Cmd>)
    requires var state := StatusFromShow(unit, sys(done, ShowCmd(unit))).unitFileState;
      !enabled || (state != "static" && state != "masked")
    ensures var probe := done + [ShowCmd(unit)];
      var c := Cmd(if enabled then Enable else Disable, unit);
      var out := EnableOutcome(sys, unit, enabled, done);
      && (sys(probe, c).rc != 0 ==> out == (Err(SystemctlError(FailureMessage(sys(probe, c), c.verb))), probe + [c]))
      && (sys(probe, c).rc == 0 ==>
            out == (Ok(StatusFromShow(unit, sys(probe + [c], ShowCmd(unit)))), probe + [c, ShowCmd(unit)]))
  {
    var probe := done + [ShowCmd(unit)];
    var c := Cmd(if enabled then Enable else Disable, unit);
    RunScriptOne(sys, probe, c);
    assert probe + [c] + [ShowCmd(unit)] == probe + [c, ShowCmd(unit)];
  }

  /** The allowlist admits exactly the two default units. */
  lemma AllowedUnitsExactly(unit: string)
    ensures IsAllowed(unit) <==> unit == "sshd.service" || unit == "bluetooth.service"
  {
    if unit == "sshd.service" {
      assert DefaultUnits[0] in AllowedUnits();
    }
    if unit == "bluetooth.service" {
      assert DefaultUnits[1] in AllowedUnits();
    }
  }

  /** The gate passes exactly the names that normalise to an allowlisted unit, and names that name. */
  lemma GateAdmits(unit: string)
    ensures Gate(unit).Ok? <==> Normalize(unit).Ok? && IsAllowed(Normalize(unit).value)
    ensures Gate(unit).Ok? ==> Gate(unit).value == Normalize(unit).value
    ensures Normalize(unit).Ok? && !IsAllowed(Normalize(unit).value) ==> Gate(unit) == Err(ValueError(NotAllowlisted))
  {
  }

  /** A bare `sshd` passes the gate, as `sshd.service`. */
  lemma GateBareName(input: string)
    requires input == "sshd"
    ensures Gate(input) == Ok("sshd.service")
  {
    NormalizeBareName(input);
    AllowedUnitsExactly("sshd.service");
  }

  /** Every entry names its unit in normal form. */
  predicate AllNormal(entries: seq<Entry>)
  {
    forall i :: 0 <= i < |entries| ==> InNormalForm(entries[i].unit)
  }

  /** Every allowlist entry names its unit in normal form, so normalisation leaves it unchanged. */
  lemma AllowedUnitsNormal()
    ensures AllNormal(AllowedUnits())
  {
    var ssh := AllowedUnits()[0].unit;
    assert UnitCharsIn(ssh, 0, |ssh|) && ssh[4] == '.';
    var bt := AllowedUnits()[1].unit;
    assert UnitCharsIn(bt, 0, |bt|) && bt[9] == '.';
  }

  /** One `get_services` row: the entry's unit status, labelled by the entry or else by the unit. */
  function Row(sys: Oracle, done: seq<Cmd>, e: Entry): (row: (Result<ServiceInfo, Error>, seq<Cmd>))
    ensures row.0.Err? ==> row.1 == done
    ensures row.0.Ok? ==>
      var info := row.0.value;
      && row.1 == done + [ShowCmd(info.status.unit)]
      && info.displayLabel == GetOr(e.displayLabel, info.status.unit)
  {
    var (status, t) := UnitStatus(sys, done, e.unit);
    match status
    case Err(err) => (Err(err), t)
    case Ok(s) => (Ok(ServiceInfo(GetOr(e.displayLabel, s.unit), s)), t)
  }

  /** The rows for `entries`, in order, stopping at the first entry whose name is refused. */
  function Rows(sys: Oracle, done: seq<Cmd>, entries: seq<Entry>): (out: (Result<seq<ServiceInfo>, Error>, seq<Cmd>))
    ensures done <= out.1
    ensures out.0.Ok? ==> |out.0.value| == |entries| && |out.1| == |done| + |entries|
    decreases |entries|
  {
    if entries == [] then (Ok([]), done)
    else
      var prev := Rows(sys, done, entries[..|entries| - 1]);
      if prev.0.Err? then prev
      else
        var row := Row(sys, prev.1, entries[|entries| - 1]);
        match row.0
        case Err(e) => (Err(e), row.1)
        case Ok(info) => (Ok(prev.0.value + [info]), row.1)
  }

  /** The rows for one more entry: unchanged after a refusal, otherwise that entry's row appended. */
  lemma RowsAppend(sys: Oracle, done: seq<Cmd>, init: seq<Entry>, e: Entry)
    ensures var prev := Rows(sys, done, init);
      var row := Row(sys, prev.1, e);
      Rows(sys, done, init + [e])
      == if prev.0.Err? then prev
         else if row.0.Err? then (Err(row.0.error), row.1)
         else (Ok(prev.0.value + [row.0.value]), row.1)
  {
    assert (init + [e])[..|init|] == init;
  }

  /** Once an entry is refused, later entries change nothing. */
  lemma {:induction false} RowsStopAtError(sys: Oracle, done: seq<Cmd>, entries: seq<Entry>, more: seq<Entry>)
    requires Rows(sys, done, entries).0.Err?
    ensures Rows(sys, done, entries + more) == Rows(sys, done, entries)
    decreases |more|
  {
    if more != [] {
      var init := entries + more[..|more| - 1];
      assert (entries + more)[..|entries + more| - 1] == init;
      RowsStopAtError(sys, done, entries, more[..|more| - 1]);
    } else {
      assert entries + more == entries;
    }
  }

  /**
   * Row `i` of a `get_services` result, with entry `e`, in trace `t` whose
   * first `base` commands came before the call: the `i`-th `show` names the
   * entry's unit, and the row carries that `show`'s status and the entry's
   * label, or else the unit.
   */
  predicate RowMatches(sys: Oracle, t: seq<Cmd>, base: nat, i: nat, e: Entry, info: ServiceInfo)
    requires base + i < |t|
  {
    && t[base + i] == ShowCmd(e.unit)
    && info == ServiceInfo(GetOr(e.displayLabel, e.unit), StatusFromShow(e.unit, sys(t[..base + i], ShowCmd(e.unit))))
  }

  /** Commands issued later do not change what an earlier row matches. */
  lemma RowMatchesExtend(sys: Oracle, t: seq<Cmd>, extra: seq<Cmd>, base: nat, i: nat, e: Entry, info: ServiceInfo)
    requires base + i < |t| && RowMatches(sys, t, base, i, e, info)
    ensures RowMatches(sys, t + extra, base, i, e, info)
  {
    assert (t + extra)[..base + i] == t[..base + i];
  }

  /** An entry in normal form adds its row and its `show` to the rows before it. */
  lemma RowsSnoc(sys: Oracle, done: seq<Cmd>, init: seq<Entry>, e: Entry)
    requires Rows(sys, done, init).0.Ok? && InNormalForm(e.unit)
    ensures var prev := Rows(sys, done, init);
      Rows(sys, done, init + [e])
      == (Ok(prev.0.value + [ServiceInfo(GetOr(e.displayLabel, e.unit), StatusFromShow(e.unit, sys(prev.1, ShowCmd(e.unit))))]),
          prev.1 + [ShowCmd(e.unit)])
  {
    assert (init + [e])[..|init|] == init;
    NormalizeDottedName(e.unit);
  }

  /**
   * When every entry names its unit in normal form there is exactly one row
   * per entry, in order, each from its own `show` of that entry's unit.
   */
  lemma {:induction false} RowsOfNormalEntries(sys: Oracle, done: seq<Cmd>, entries: seq<Entry>)
    requires AllNormal(entries)
    ensures var out := Rows(sys, done, entries);
      && out.0.Ok? && |out.0.value| == |entries|
      && |out.1| == |done| + |entries| && out.1[..|done|] == done
      && forall i :: 0 <= i < |entries| ==> RowMatches(sys, out.1, |done|, i, entries[i], out.0.value[i])
    decreases |entries|
  {
    if entries != [] {
      var init := entries[..|entries| - 1];
      var e := entries[|entries| - 1];
      assert entries == init + [e];
      assert AllNormal(init) && InNormalForm(e.unit) by {
        assert forall i :: 0 <= i < |init| ==> init[i] == entries[i];
      }
      RowsOfNormalEntries(sys, done, init);
      var prev := Rows(sys, done, init);
      RowsSnoc(sys, done, init, e);
      var out := Rows(sys, done, entries);
      var info := out.0.value[|init|];
      assert out.1[..|done| + |init|] == prev.1;
      assert RowMatches(sys, out.1, |done|, |init|, e, info);
      forall i | 0 <= i < |entries|
        ensures RowMatches(sys, out.1, |done|, i, entries[i], out.0.value[i])
      {
        if i < |init| {
          assert entries[i] == init[i] && out.0.value[i] == prev.0.value[i];
          RowMatchesExtend(sys, prev.1, [ShowCmd(e.unit)], |done|, i, init[i], prev.0.value[i]);
        }
      }
    }
  }

  /**
   * `get_services`: for each allowlist entry in turn, the unit's status and
   * its display label.
   */
  method GetServices(sys: Oracle, done: seq<Cmd>) returns (r: Result<seq<ServiceInfo>, Error>, trace: seq<Cmd>)
    ensures (r, trace) == Rows(sys, done, AllowedUnits())
  {
    var entries := AllowedUnits();
    var services: seq<ServiceInfo> := [];
    trace := done;
    for i := 0 to |entries|
      invariant (Ok(services), trace) == Rows(sys, done, entries[..i])
    {
      ghost var before := trace;
      var row;
      row, trace := ServiceRow(entries[i], sys, trace);
      RowsStep(sys, done, entries, i, services, before, row, trace);
      if row.Err? {
        return Err(row.error), trace;
      }
      services := services + [row.value];
    }
    assert entries[..|entries|] == entries;
    r := Ok(services);
  }

  /**
   * One turn of the `get_services` loop: a refused row ends the whole result
   * with its error, an admitted one extends the rows so far.
   */
  lemma RowsStep(sys: Oracle, done: seq<Cmd>, entries: seq<Entry>, i: nat, services: seq<ServiceInfo>,
                 before: seq<Cmd>, row: Result<ServiceInfo, Error>, after: seq<Cmd>)
    requires i < |entries|
    requires (Ok(services), before) == Rows(sys, done, entries[..i])
    requires (row, after) == Row(sys, before, entries[i])
    ensures row.Err? ==> Rows(sys, done, entries) == (Err(row.error), after)
    ensures row.Ok? ==> Rows(sys, done, entries[..i + 1]) == (Ok(services + [row.value]), after)
  {
    TakeOneMore(entries, i);
    RowsAppend(sys, done, entries[..i], entries[i]);
    if row.Err? {
      RowsStopAtError(sys, done, entries[..i + 1], entries[i + 1..]);
      assert entries[..i + 1] + entries[i + 1..] == entries;
    }
  }

  lemma TakeOneMore<T>(s: seq<T>, i: nat)
    requires i < |s|
    ensures s[..i + 1] == s[..i] + [s[i]]
  {
  }

  /** One pass of the `get_services` loop: the entry's unit status and the row built from it. */
  method ServiceRow(e: Entry, sys: Oracle, done: seq<Cmd>) returns (row: Result<ServiceInfo, Error>, trace: seq<Cmd>)
    ensures (row, trace) == Row(sys, done, e)
  {
    var status;
    status, trace := GetUnitStatus(e.unit, sys, done);
    if status.Err? {
      return Err(status.error), trace;
    }
    row := Ok(ServiceInfo(GetOr(e.displayLabel, status.value.unit), status.value));
  }

  /**
   * `get_services` returns one row per allowlist entry, in allowlist order,
   * each from its own `show` of that entry's unit, and issues nothing else.
   */
  lemma GetServicesRows(sys: Oracle, done: seq<Cmd>)
    ensures var out := Rows(sys, done, AllowedUnits());
      && out.0.Ok? && |out.0.value| == |AllowedUnits()|
      && |out.1| == |done| + |AllowedUnits()| && out.1[..|done|] == done
      && forall i :: 0 <= i < |AllowedUnits()| ==>
           RowMatches(sys, out.1, |done|, i, AllowedUnits()[i], out.0.value[i])
  {
    AllowedUnitsNormal();
    RowsOfNormalEntries(sys, done, AllowedUnits());
  }
}
