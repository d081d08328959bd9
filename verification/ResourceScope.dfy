/**
 The timed steps of internal/resource/scope.go. A subprocess that outlives its context is cut off within the
 wait delay; files are read in no time. Times are milliseconds.
 */
module ResourceScope {
  import opened ReportModel

  // ---------- the timing policy ----------

  datatype Policy = Policy(
    wallTime: nat, scopeRuntime: nat, waitDelay: nat, teardownTimeout: nat, teardownCommandTimeout: nat,
      operationTimeout: nat)

  /** `policy.ValidTimingPolicy`. */
  predicate ValidTiming(p: Policy) {
    && p.wallTime + p.waitDelay < p.scopeRuntime && p.teardownCommandTimeout <= p.teardownTimeout
    && p.operationTimeout == p.scopeRuntime + p.waitDelay + p.teardownTimeout + p.waitDelay
  }

  const PRODUCTION := Policy(30_000, 35_000, 2_000, 3_000, 1_000, 42_000)
  const POLL_INTERVAL := 25

  function Min(a: int, b: int): int {
    if a < b then a else b
  }

  function Max(a: int, b: int): int {
    if a < b then b else a
  }

  datatype Deadlines = Deadlines(operationEnd: int, runEnd: int)

  function DeadlinesFor(p: Policy, start: int): Deadlines {
    var operationEnd := start + p.operationTimeout;
    Deadlines(operationEnd, operationEnd - (p.teardownTimeout + 2 * p.waitDelay))
  }

  /** Under a valid policy the run itself gets the whole scope runtime, which exceeds the wall time. */
  lemma RunGetsScopeRuntime(p: Policy, start: int)
    requires ValidTiming(p)
    ensures DeadlinesFor(p, start).runEnd == start + p.scopeRuntime
    ensures start + p.wallTime + p.waitDelay < DeadlinesFor(p, start).runEnd
  {
  }

  lemma ProductionTimingIsValid()
    ensures ValidTiming(PRODUCTION)
  {
  }

  // ---------- what the outside answers ----------

  /** How long a subprocess wants to take, and what it prints if it is let finish and succeeds. */
  datatype Command = Command(wanted: nat, output: Option<string>)

  /** One reading of `cgroup.events`: gone, unreadable, or its lines split into fields. */
  datatype Events = Gone | Unreadable | Lines(lines: seq<seq<string>>)

  predicate PopulatedLine(line: seq<string>) {
    |line| == 2 && line[0] == "populated"
  }

  predicate KnownState(line: seq<string>) {
    |line| == 2 && (line[1] == "0" || line[1] == "1")
  }

  /** Exactly one `populated` line, and it says 0 or 1. */
  ghost predicate States(lines: seq<seq<string>>, at: int) {
    && 0 <= at < |lines| && PopulatedLine(lines[at]) && KnownState(lines[at])
    && forall i :: 0 <= i < |lines| && i != at ==> !PopulatedLine(lines[i])
  }

  /** `parseCgroupPopulated`, past its length check. */
  method ParsePopulated(lines: seq<seq<string>>) returns (populated: Option<bool>)
    ensures populated.Some? <==> exists at :: States(lines, at)
    ensures populated.Some? ==> exists at :: States(lines, at) && (populated.value <==> lines[at][1] == "1")
  {
    populated := None;
    ghost var at := -1;
    for k := 0 to |lines|
      invariant populated.None? ==> forall i :: 0 <= i < k ==> !PopulatedLine(lines[i])
      invariant populated.Some? ==>
        0 <= at < k && PopulatedLine(lines[at]) && KnownState(lines[at]) && (populated.value <==> lines[at][1] == "1")
      invariant populated.Some? ==> forall i :: 0 <= i < k && i != at ==> !PopulatedLine(lines[i])
    {
      if |lines[k]| == 2 && lines[k][0] == "populated" {
        if populated.Some? || (lines[k][1] != "0" && lines[k][1] != "1") {
          Ambiguous(lines, k, at, populated.Some?);
          return None;
        }
        populated := Some(lines[k][1] == "1");
        at := k;
      }
    }
    if populated.Some? {
      assert States(lines, at);
    }
  }

  lemma Ambiguous(lines: seq<seq<string>>, k: nat, at: int, second: bool)
    requires k < |lines| && PopulatedLine(lines[k])
    requires if second then 0 <= at < k && PopulatedLine(lines[at]) else !KnownState(lines[k])
    ensures !exists x :: States(lines, x)
  {
  }

  // ---------- teardown ----------

  /** Why a unit counts as gone, or that nothing showed it. */
  datatype Verdict = NotFound | InactiveWithoutCgroup | CgroupGone | CgroupEmpty | Unconfirmed

  /** The state names compared after trimming; the trimming and the cgroup path check stay open. */
  datatype Shell = Shell(trim: string -> string, ownedCgroup: string -> bool)

  predicate TerminalWithoutCgroup(loadState: string, activeState: string) {
    loadState == "loaded" && (activeState == "inactive" || activeState == "failed")
  }

  class Manager {
    const policy: Policy
    const shell: Shell
    /** The answers of successive subprocesses, cgroup readings and choices between two ready channels. */
    const commands: nat -> Command
    const readings: nat -> Events
    const tickFirst: nat -> bool
    var now: int
    var issued: nat
    var polled: nat

    constructor (policy: Policy, shell: Shell, commands: nat -> Command, readings: nat -> Events,
      tickFirst: nat -> bool, start: int)
      ensures this.policy == policy && this.shell == shell && this.commands == commands && this.readings == readings
      ensures now == start && issued == 0 && polled == 0
    {
      this.policy, this.shell, this.commands, this.readings, this.tickFirst :=
        policy, shell, commands, readings, tickFirst;
      now, issued, polled := start, 0, 0;
    }

    /** Started at this time, the command is done by the deadline. */
    ghost predicate Finishes(command: nat, start: int, deadline: int) {
      start + commands(command).wanted <= deadline
    }

    /** A command under a context: it returns within the wait delay of the context's end, and late means failed. */
    method Execute(deadline: int) returns (output: Option<string>)
      modifies this`now, this`issued
      ensures issued == old(issued) + 1
      ensures old(now) <= now <= Max(old(now), deadline + policy.waitDelay)
      ensures output == if Finishes(old(issued), old(now), deadline) then commands(old(issued)).output else None
      ensures Finishes(old(issued), old(now), deadline) ==> now <= deadline
    {
      var command := commands(issued);
      issued := issued + 1;
      if now + command.wanted <= deadline {
        now := now + command.wanted;
        return command.output;
      }
      now := Max(now, Min(now + command.wanted, deadline + policy.waitDelay));
      output := None;
    }

    /**
     `waitCgroupEmpty`: poll while the cgroup is populated. The last reading decides: gone, empty, or, without
     confirmation, one that states nothing or one still populated when the context has ended.
     */
    method WaitCgroupEmpty(deadline: int) returns (verdict: Verdict)
      modifies this`now, this`polled
      ensures old(now) <= now <= Max(old(now), deadline)
      ensures polled > old(polled)
      ensures forall k :: old(polled) <= k < polled - 1 ==> PopulatedReading(readings(k))
      ensures verdict == CgroupGone <==> readings(polled - 1).Gone?
      ensures verdict == CgroupEmpty <==> EmptyReading(readings(polled - 1))
      ensures verdict == Unconfirmed <==> !readings(polled - 1).Gone? && !EmptyReading(readings(polled - 1))
      ensures verdict == Unconfirmed && PopulatedReading(readings(polled - 1)) ==> now >= deadline
    {
      var tick := now + POLL_INTERVAL;
      while true
        invariant old(now) <= now <= Max(old(now), deadline) && polled >= old(polled) && tick > now
        invariant forall k :: old(polled) <= k < polled ==> PopulatedReading(readings(k))
        decreases deadline + POLL_INTERVAL - tick
      {
        var events := readings(polled);
        polled := polled + 1;
        if events.Gone? {
          return CgroupGone;
        }
        if events.Unreadable? {
          return Unconfirmed;
        }
        var populated := ParsePopulated(events.lines);
        if populated.None? {
          return Unconfirmed;
        }
        StatesOnce(events.lines);
        if !populated.value {
          return CgroupEmpty;
        }
        now := Max(now, Min(deadline, tick));
        if now >= deadline && (now < tick || !tickFirst(polled)) {
          return Unconfirmed;
        }
        tick := tick + POLL_INTERVAL;
      }
    }

    /** `Terminate`. */
    method Terminate(contextEnd: int) returns (verdict: Verdict)
      modifies this
      ensures old(now) <= now <= Max(old(now), Min(contextEnd, old(now) + policy.teardownTimeout) + policy.waitDelay)
      ensures Confirmed(verdict, old(issued), old(polled), polled)
      ensures verdict == NotFound <==>
        var teardown := Min(contextEnd, old(now) + policy.teardownTimeout);
        Finishes(old(issued), old(now), teardown) && Said(old(issued), "not-found", 128)
    {
      var teardown := Min(contextEnd, now + policy.teardownTimeout);
      ghost var first := issued;
      var loadState := Execute(teardown);
      if loadState.None? || |loadState.value| > 128 {
        return Unconfirmed;
      }
      if shell.trim(loadState.value) == "not-found" {
        return NotFound;
      }
      var controlGroup := Execute(teardown);
      if controlGroup.None? || |controlGroup.value| > 4096 {
        return Unconfirmed;
      }
      if shell.trim(controlGroup.value) == "" {
        var activeState := Execute(teardown);
        if activeState.Some? && |activeState.value| <= 128
          && TerminalWithoutCgroup(shell.trim(loadState.value), shell.trim(activeState.value)) {
          return InactiveWithoutCgroup;
        }
        return Unconfirmed;
      }
      if !shell.ownedCgroup(shell.trim(controlGroup.value)) {
        return Unconfirmed;
      }
      var killed := Execute(Min(teardown, now + policy.teardownCommandTimeout));
      verdict := WaitCgroupEmpty(teardown);
    }

    /**
     What the trace shows for each verdict of success: the answers from `first` on, and the last of the cgroup
     readings taken from `before` on, all of this teardown.
     */
    ghost predicate Confirmed(verdict: Verdict, first: nat, before: nat, polls: nat) {
      match verdict
      case NotFound => Said(first, "not-found", 128)
      case InactiveWithoutCgroup =>
        && Said(first, "loaded", 128) && Said(first + 1, "", 4096)
        && (Said(first + 2, "inactive", 128) || Said(first + 2, "failed", 128))
      case CgroupGone => OwnedAnswer(first + 1) && before < polls && readings(polls - 1).Gone?
      case CgroupEmpty => OwnedAnswer(first + 1) && before < polls && EmptyReading(readings(polls - 1))
      case Unconfirmed => true
    }

    ghost predicate Said(command: nat, text: string, limit: nat) {
      var output := commands(command).output;
      output.Some? && |output.value| <= limit && shell.trim(output.value) == text
    }

    /** The unit's own cgroup was named. */
    ghost predicate OwnedAnswer(command: nat) {
      var output := commands(command).output;
      && output.Some? && |output.value| <= 4096 && shell.trim(output.value) != ""
      && shell.ownedCgroup(shell.trim(output.value))
    }

    /** When the context of the run ends: its own deadline, or the caller's cancellation before it. */
    function RunContextEnd(start: int, cancelled: Option<int>): int {
      var runEnd := DeadlinesFor(policy, start).runEnd;
      if cancelled.Some? then Min(runEnd, cancelled.value) else runEnd
    }

    /**
     `Run`: whatever the subprocess and the caller's cancellation do, it returns by the operation timeout, and
     teardown starts within the wait delay of the context's end and has its whole timeout ahead of it. It succeeds
     exactly when the subprocess finished under its context with success and this teardown confirmed the unit gone.
     */
    method Run(cancelled: Option<int>)
      returns (ok: bool, ghost verdict: Verdict, ghost teardownStart: int, ghost teardownEnd: int)
      requires ValidTiming(policy)
      modifies this
      ensures old(now) <= teardownStart <= now <= old(now) + policy.operationTimeout
      ensures teardownStart <= Max(old(now), RunContextEnd(old(now), cancelled) + policy.waitDelay)
      ensures teardownEnd == teardownStart + policy.teardownTimeout
      ensures Confirmed(verdict, old(issued) + 1, old(polled), polled)
      ensures ok <==>
        && Finishes(old(issued), old(now), RunContextEnd(old(now), cancelled)) && commands(old(issued)).output.Some?
        && verdict != Unconfirmed
    {
      var deadlines := DeadlinesFor(policy, now);
      var output := Execute(RunContextEnd(now, cancelled));
      var end := Min(deadlines.operationEnd - policy.waitDelay, now + policy.teardownTimeout);
      teardownStart, teardownEnd := now, end;
      var confirmed := Terminate(end);
      verdict := confirmed;
      ok := output.Some? && confirmed != Unconfirmed;
    }
  }

  ghost predicate EmptyReading(events: Events) {
    events.Lines? && exists at :: States(events.lines, at) && events.lines[at][1] != "1"
  }

  ghost predicate PopulatedReading(events: Events) {
    events.Lines? && exists at :: States(events.lines, at) && events.lines[at][1] == "1"
  }

  /** A reading states one thing at most. */
  lemma StatesOnce(lines: seq<seq<string>>)
    ensures !(EmptyReading(Lines(lines)) && PopulatedReading(Lines(lines)))
  {
  }
}
