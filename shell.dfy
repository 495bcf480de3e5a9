/**
 * The shell's interpreter for one input line: `execute` splits the line on
 * `;`, then `&&`, then `||`, and short-circuits; `run_one_command` resolves a
 * simple command, extracts its arguments and turns what the command did into
 * an exit code; `_run_command` runs the command body directly or as a job.
 */
module Shell {
  import opened Wrappers
  import opened PyText
  import opened Completer
  import opened AsyncJobs

  /**
   * What `execute` gives back for a simple command: an exit code, or the
   * SystemExit(222) of the `exit` command that escapes the whole line.
   */
  datatype Status = Code(code: int) | Exit

  /** The three control operators, in the order `execute` looks for them. */
  datatype Mode = Sequence | AndThen | OrElse

  function Separator(m: Mode): (sep: string)
    ensures |sep| >= 1
  {
    match m
    case Sequence => ";"
    case AndThen => "&&"
    case OrElse => "||"
  }

  /** The operator `execute` splits `s` on, if any: `;` before `&&` before `||`. */
  function ModeOf(s: string): (r: Option<Mode>)
    ensures r == None <==> !Contains(s, ";") && !Contains(s, "&&") && !Contains(s, "||")
    ensures r == Some(Sequence) <==> Contains(s, ";")
    ensures r == Some(AndThen) <==> !Contains(s, ";") && Contains(s, "&&")
    ensures r.Some? ==> Contains(s, Separator(r.value))
  {
    if Contains(s, ";") then Some(Sequence)
    else if Contains(s, "&&") then Some(AndThen)
    else if Contains(s, "||") then Some(OrElse)
    else None
  }

  /**
   * Whether a segment's status ends the loop over its siblings: an escaping
   * exit always does; `&&` stops after a code above 0, `||` after a code of 0.
   */
  predicate Stops(m: Mode, st: Status) {
    match st
    case Exit => true
    case Code(c) =>
      match m
      case Sequence => false
      case AndThen => c > 0
      case OrElse => c == 0
  }

  /**
   * How `execute` reads a line: a simple command (stripped), or the segments
   * of a split on one operator, each read the same way in turn.
   */
  datatype Line = Simple(command: string) | Compound(mode: Mode, parts: seq<Line>)

  /** The tree of recursive `execute` calls a line gives rise to. */
  function Parse(s: string): (t: Line)
    decreases |s|, 1
  {
    match ModeOf(s)
    case None => Simple(Strip(s))
    case Some(m) =>
      var parts := Split(s, Separator(m));
      SplitPieceLengths(s, Separator(m));
      Compound(m, ParseAll(s, parts))
  }

  /** The trees of the segments `parts` of `s`, in order. */
  function ParseAll(s: string, parts: seq<string>): (r: seq<Line>)
    requires forall k :: 0 <= k < |parts| ==> |parts[k]| < |s|
    ensures |r| == |parts|
    decreases |s|, 0, |parts|
  {
    if parts == [] then [] else [Parse(parts[0])] + ParseAll(s, parts[1..])
  }

  /** Each segment's tree is that segment read on its own. */
  lemma {:induction false} ParseAllPieces(s: string, parts: seq<string>)
    requires forall k :: 0 <= k < |parts| ==> |parts[k]| < |s|
    ensures forall k :: 0 <= k < |parts| ==> ParseAll(s, parts)[k] == Parse(parts[k])
    decreases |parts|
  {
    if parts != [] {
      var rest := ParseAll(s, parts[1..]);
      ParseAllPieces(s, parts[1..]);
      assert ParseAll(s, parts) == [Parse(parts[0])] + rest;
      forall k | 0 <= k < |parts| ensures ParseAll(s, parts)[k] == Parse(parts[k]) {
        if k > 0 {
          assert parts[1..][k - 1] == parts[k];
        }
      }
    }
  }

  /** `;` binds loosest, then `&&`, then `||`. */
  function Rank(t: Line): nat {
    match t
    case Simple(_) => 0
    case Compound(Sequence, _) => 3
    case Compound(AndThen, _) => 2
    case Compound(OrElse, _) => 1
  }

  /**
   * The shape every parsed line has: each operator node has at least two
   * segments, each of lower rank than the node, and each simple command is
   * stripped and holds no operator.
   */
  predicate Nested(t: Line)
    decreases t
  {
    match t
    case Simple(c) =>
      Strip(c) == c && !Contains(c, ";") && !Contains(c, "&&") && !Contains(c, "||")
    case Compound(_, ps) =>
      |ps| >= 2 && forall k :: 0 <= k < |ps| ==> Rank(ps[k]) < Rank(t) && Nested(ps[k])
  }

  lemma {:induction false} ParseNested(s: string)
    ensures Nested(Parse(s))
    decreases |s|, 1
  {
    match ModeOf(s)
    case None =>
      PlainNested(s);
    case Some(m) =>
      var parts := Split(s, Separator(m));
      SplitPieceLengths(s, Separator(m));
      ParseAllPieces(s, parts);
      var t := Parse(s);
      assert t == Compound(m, ParseAll(s, parts));
      forall k | 0 <= k < |parts|
        ensures Rank(t.parts[k]) < Rank(t) && Nested(t.parts[k])
      {
        PartNested(s, m, k);
      }
  }

  /** Each segment of a split line is a nested tree of lower rank. */
  lemma {:induction false} PartNested(s: string, m: Mode, k: nat)
    requires ModeOf(s) == Some(m) && k < |Split(s, Separator(m))|
    ensures Rank(Parse(Split(s, Separator(m))[k])) < Rank(Compound(m, []))
    ensures Nested(Parse(Split(s, Separator(m))[k]))
    decreases |s|, 0
  {
    var sep := Separator(m);
    SplitPieceLengths(s, sep);
    SplitPiecesAvoid(s, sep);
    if m != Sequence {
      SplitPiecesInherit(s, sep, ";");
    }
    if m == OrElse {
      SplitPiecesInherit(s, sep, "&&");
    }
    LowerRank(Split(s, sep)[k], m);
    ParseNested(Split(s, sep)[k]);
  }

  /** A line without operators reads as its stripped self, which has none either. */
  lemma PlainNested(s: string)
    requires ModeOf(s) == None
    ensures Nested(Parse(s))
  {
    StripUnchanged(Strip(s));
    StripAvoids(s, ";");
    StripAvoids(s, "&&");
    StripAvoids(s, "||");
  }

  /** A segment free of its parent's operator and of the looser ones reads as a lower-rank tree. */
  lemma LowerRank(p: string, m: Mode)
    requires !Contains(p, Separator(m))
    requires m != Sequence ==> !Contains(p, ";")
    requires m == OrElse ==> !Contains(p, "&&")
    ensures Rank(Parse(p)) < Rank(Compound(m, []))
  {
  }

  /**
   * The record of evaluating a line: the status of each top-level segment
   * run, in order, and the simple commands handed to `run_one_command`, in
   * order.
   */
  datatype Run = Run(statuses: seq<Status>, trace: seq<string>)

  /**
   * Evaluating a parsed line, where `run(n, c)` is the status of the `n`-th
   * call of `run_one_command` (counting from 0) on the simple command `c`,
   * and `done` calls were made before. An operator node without segments,
   * which parsing never builds, keeps `execute`'s initial result 0.
   */
  function EvalLine(t: Line, run: (nat, string) -> Status, done: nat): (r: Run)
    ensures |r.statuses| >= 1
    decreases t, 1
  {
    match t
    case Simple(c) => Run([run(done, c)], [c])
    case Compound(m, ps) => if ps == [] then Run([Code(0)], []) else EvalParts(t, 0, Run([], []), run, done)
  }

  /**
   * The loop of `execute` over the segments of `t` from the `i`-th on, after
   * the turns recorded in `acc`: each turn records the status and the calls
   * of its segment, and the loop ends after the last segment or on a status
   * that stops the mode.
   */
  function EvalParts(t: Line, i: nat, acc: Run, run: (nat, string) -> Status, done: nat): (r: Run)
    requires t.Compound? && i < |t.parts|
    ensures |acc.statuses| + 1 <= |r.statuses| <= |acc.statuses| + |t.parts| - i
    decreases t, 0, |t.parts| - i
  {
    var part := EvalLine(t.parts[i], run, done + |acc.trace|);
    var st := Last(part.statuses);
    var next := Run(acc.statuses + [st], acc.trace + part.trace);
    if i == |t.parts| - 1 || Stops(t.mode, st) then next else EvalParts(t, i + 1, next, run, done)
  }

  /** `execute(s)`: its segments' statuses and the commands it runs. */
  function Eval(s: string, run: (nat, string) -> Status, done: nat): Run {
    EvalLine(Parse(s), run, done)
  }

  /** The status `execute(s)` returns: that of the last segment run. */
  function Outcome(s: string, run: (nat, string) -> Status, done: nat): Status {
    Last(Eval(s, run, done).statuses)
  }

  /** Every status but the last lets a loop in mode `m` go on. */
  predicate GoesOn(m: Mode, sts: seq<Status>) {
    forall k :: 0 <= k < |sts| - 1 ==> !Stops(m, sts[k])
  }

  /** One turn of the loop, given the status and the calls of its segment. */
  lemma PartStep(t: Line, i: nat, statuses: seq<Status>, trace: seq<string>, run: (nat, string) -> Status,
                 done: nat, st: Status, partTrace: seq<string>)
    requires t.Compound? && i < |t.parts|
    requires st == Last(EvalLine(t.parts[i], run, done + |trace|).statuses)
    requires partTrace == EvalLine(t.parts[i], run, done + |trace|).trace
    ensures i == |t.parts| - 1 || Stops(t.mode, st) ==>
              EvalParts(t, i, Run(statuses, trace), run, done) == Run(statuses + [st], trace + partTrace)
    ensures i < |t.parts| - 1 && !Stops(t.mode, st) ==>
              EvalParts(t, i, Run(statuses, trace), run, done) ==
              EvalParts(t, i + 1, Run(statuses + [st], trace + partTrace), run, done)
  {
  }

  /** The loop goes on past every segment run but the last. */
  lemma {:induction false} ShortCircuitGoesOn(t: Line, i: nat, acc: Run, run: (nat, string) -> Status, done: nat)
    requires t.Compound? && i < |t.parts|
    requires forall k :: 0 <= k < |acc.statuses| ==> !Stops(t.mode, acc.statuses[k])
    ensures GoesOn(t.mode, EvalParts(t, i, acc, run, done).statuses)
    decreases |t.parts| - i
  {
    var part := EvalLine(t.parts[i], run, done + |acc.trace|);
    var st := Last(part.statuses);
    var next := Run(acc.statuses + [st], acc.trace + part.trace);
    if i == |t.parts| - 1 || Stops(t.mode, st) {
      assert EvalParts(t, i, acc, run, done) == next;
      forall k | 0 <= k < |next.statuses| - 1 ensures !Stops(t.mode, next.statuses[k]) {
        assert next.statuses[k] == acc.statuses[k];
      }
    } else {
      forall k | 0 <= k < |next.statuses| ensures !Stops(t.mode, next.statuses[k]) {
        if k < |acc.statuses| {
          assert next.statuses[k] == acc.statuses[k];
        } else {
          assert next.statuses[k] == st;
        }
      }
      ShortCircuitGoesOn(t, i + 1, next, run, done);
    }
  }

  /** The loop ends before the last segment only on a segment that stops it. */
  lemma {:induction false} ShortCircuitStops(t: Line, i: nat, acc: Run, run: (nat, string) -> Status, done: nat)
    requires t.Compound? && i < |t.parts|
    ensures |EvalParts(t, i, acc, run, done).statuses| < |acc.statuses| + |t.parts| - i ==>
              Stops(t.mode, Last(EvalParts(t, i, acc, run, done).statuses))
    decreases |t.parts| - i
  {
    var part := EvalLine(t.parts[i], run, done + |acc.trace|);
    var st := Last(part.statuses);
    var next := Run(acc.statuses + [st], acc.trace + part.trace);
    if i == |t.parts| - 1 || Stops(t.mode, st) {
      assert Last(next.statuses) == st;
    } else {
      ShortCircuitStops(t, i + 1, next, run, done);
    }
  }

  /** The statuses of a line split on `m` are those of the loop over its segments. */
  lemma SplitLine(s: string, m: Mode, run: (nat, string) -> Status, done: nat)
    requires ModeOf(s) == Some(m)
    ensures Parse(s).Compound? && Parse(s).mode == m
    ensures |Parse(s).parts| == |Split(s, Separator(m))| >= 2
    ensures Eval(s, run, done) == EvalParts(Parse(s), 0, Run([], []), run, done)
  {
    SplitPieceLengths(s, Separator(m));
  }

  /** With `;`, every segment runs unless one escapes with the exit status. */
  lemma SequenceRunsEverySegment(s: string, run: (nat, string) -> Status, done: nat)
    requires Contains(s, ";")
    requires Exit !in Eval(s, run, done).statuses
    ensures |Eval(s, run, done).statuses| == |Split(s, ";")|
  {
    SplitLine(s, Sequence, run, done);
    ShortCircuitStops(Parse(s), 0, Run([], []), run, done);
  }

  /**
   * With `&&` and no `;`, the segments run while each gives a code of 0 or
   * less, and the loop ends early only after a code above 0 or an exit.
   */
  lemma AndStopsAfterFailure(s: string, run: (nat, string) -> Status, done: nat)
    requires !Contains(s, ";") && Contains(s, "&&")
    ensures GoesOn(AndThen, Eval(s, run, done).statuses)
    ensures |Eval(s, run, done).statuses| < |Split(s, "&&")| ==> Stops(AndThen, Outcome(s, run, done))
  {
    SplitLine(s, AndThen, run, done);
    ShortCircuitGoesOn(Parse(s), 0, Run([], []), run, done);
    ShortCircuitStops(Parse(s), 0, Run([], []), run, done);
  }

  /**
   * With `||` and neither `;` nor `&&`, the segments run while each gives a
   * non-zero code, and the loop ends early only after a code of 0 or an exit.
   */
  lemma OrStopsAfterSuccess(s: string, run: (nat, string) -> Status, done: nat)
    requires !Contains(s, ";") && !Contains(s, "&&") && Contains(s, "||")
    ensures GoesOn(OrElse, Eval(s, run, done).statuses)
    ensures |Eval(s, run, done).statuses| < |Split(s, "||")| ==> Stops(OrElse, Outcome(s, run, done))
  {
    SplitLine(s, OrElse, run, done);
    ShortCircuitGoesOn(Parse(s), 0, Run([], []), run, done);
    ShortCircuitStops(Parse(s), 0, Run([], []), run, done);
  }

  /** A segment with no operator is one call of `run_one_command` on its stripped text. */
  lemma PlainSegmentRunsOnce(s: string, run: (nat, string) -> Status, done: nat)
    requires !Contains(s, ";") && !Contains(s, "&&") && !Contains(s, "||")
    ensures Eval(s, run, done) == Run([run(done, Strip(s))], [Strip(s)])
  {
  }

  /**
   * `execute`: the three operator loops and the simple case, recursing into
   * each segment; the calls of `run_one_command` are numbered from `done`.
   */
  method Execute(s: string, ghost t: Line, run: (nat, string) -> Status, done: nat) returns (st: Status, trace: seq<string>)
    requires t == Parse(s)
    ensures st == Last(EvalLine(t, run, done).statuses) && trace == EvalLine(t, run, done).trace
    decreases |s|, 2
  {
    if Contains(s, ";") {
      st, trace := ExecuteSplit(s, Sequence, run, done);
    } else if Contains(s, "&&") {
      st, trace := ExecuteSplit(s, AndThen, run, done);
    } else if Contains(s, "||") {
      st, trace := ExecuteSplit(s, OrElse, run, done);
    } else {
      PlainSegmentRunsOnce(s, run, done);
      var command := Strip(s);
      st := run(done, command);
      trace := [command];
    }
  }

  /** `s.split(sep)` followed by the loop over the pieces. */
  method ExecuteSplit(s: string, m: Mode, run: (nat, string) -> Status, done: nat) returns (st: Status, trace: seq<string>)
    requires ModeOf(s) == Some(m)
    ensures st == Outcome(s, run, done) && trace == Eval(s, run, done).trace
    decreases |s|, 1
  {
    var parts := Split(s, Separator(m));
    SplitLine(s, m, run, done);
    SplitPieceLengths(s, Separator(m));
    ParseAllPieces(s, parts);
    st, trace := ExecuteParts(s, m, parts, Parse(s), run, done);
  }

  /** The loop `for command in parts`, with the `break` of its mode. */
  method ExecuteParts(s: string, m: Mode, parts: seq<string>, ghost t: Line, run: (nat, string) -> Status, done: nat)
    returns (st: Status, trace: seq<string>)
    requires t.Compound? && t.mode == m && |t.parts| == |parts| >= 1
    requires forall k {:trigger parts[k]} :: 0 <= k < |parts| ==> |parts[k]| < |s| && t.parts[k] == Parse(parts[k])
    ensures st == Last(EvalParts(t, 0, Run([], []), run, done).statuses)
    ensures trace == EvalParts(t, 0, Run([], []), run, done).trace
    decreases |s|, 0
  {
    ghost var statuses: seq<Status> := [];
    trace := [];
    var i := 0;
    while true
      invariant 0 <= i < |parts|
      invariant EvalParts(t, 0, Run([], []), run, done) == EvalParts(t, i, Run(statuses, trace), run, done)
      decreases |parts| - i
    {
      var partTrace;
      st, partTrace := Execute(parts[i], t.parts[i], run, done + |trace|);
      PartStep(t, i, statuses, trace, run, done, st, partTrace);
      statuses := statuses + [st];
      trace := trace + partTrace;
      if i == |parts| - 1 || Stops(m, st) {
        assert Last(statuses) == st;
        return;
      }
      i := i + 1;
    }
  }

  // ---------------------------------------------------------------------
  // run_one_command and _run_command

  /**
   * The arguments `run_one_command` hands to the parser: the first
   * occurrence of the command name removed from the line, the rest split
   * into non-empty tokens, and a final `?` turned into `-help` unless the
   * command is `?` itself.
   */
  function CommandArgs(input: string, name: string): (r: seq<string>)
    ensures var t := Tokens(ReplaceFirst(input, name, ""));
      |r| == |t| && (t != [] ==> r[..|r| - 1] == t[..|t| - 1]) &&
      (t != [] && Last(t) == "?" && name != "?" ==> Last(r) == "-help") &&
      (t == [] || Last(t) != "?" || name == "?" ==> r == t)
    ensures forall k :: 0 <= k < |r| ==> r[k] != ""
  {
    var t := Tokens(ReplaceFirst(input, name, ""));
    if t != [] && Last(t) == "?" && name != "?" then t[..|t| - 1] + ["-help"] else t
  }

  /** The facts about a registered command that the shell consults. */
  datatype Entry = Entry(isAsync: bool, isBackground: bool, hasFormatter: bool)

  /** What the argument parser does with the arguments: a namespace (with its `-background` flag) or a SystemExit. */
  datatype Parsed = Namespace(background: bool) | ParseExit(code: int)

  /** What escapes `_run_command`: a value, or an exception. */
  datatype CommandResult = Finished(value: int) | Threw(error: Thrown)
  datatype Thrown = BackgroundedJob(jobPid: int) | CancelledJob(jobPid: int) | Fault(fault: Fault)

  /** `if result is None: result = 0`. */
  function NoneToZero(v: Option<int>): (n: int)
    ensures v.Some? ==> n == v.value
    ensures v.None? ==> n == 0
  {
    match v
    case None => 0
    case Some(x) => x
  }

  /** What `_run_command` passes on when `foreground` ends the way `fg` says. */
  function FromForeground(fg: Foregrounded): (r: CommandResult) {
    match fg
    case Cancelled(p) => Threw(CancelledJob(p))
    case Backgrounded(p) => Threw(BackgroundedJob(p))
    case Reraised(f) => Threw(Fault(f))
    case Result(v) => Finished(NoneToZero(v))
    case KeyError(_) => Threw(Fault(OtherFault("KeyError")))
  }

  /** A plain command: its body's value, None read as 0, or its fault. */
  function FromBody(body: BodyOutcome): (r: CommandResult) {
    match body
    case Returned(v) => Finished(NoneToZero(v))
    case Raised(f) => Threw(Fault(f))
  }

  /**
   * A fresh job run in the foreground, with job id `p`: the body's value or
   * fault comes through, ctrl+z gives Backgrounded, ctrl+c gives Cancelled.
   */
  function FreshJobResult(event: WaitEvent, p: int): (r: CommandResult) {
    match event
    case AlreadyDone => Finished(0)
    case BodyEnds(o) =>
      if o.Raised? && !IsException(o.fault) then Finished(0) else FromBody(o)
    case Suspend => Threw(BackgroundedJob(p))
    case Interrupt => Threw(CancelledJob(p))
  }

  /** Whether a fresh foreground job is still in the table afterwards. */
  predicate FreshJobKept(event: WaitEvent) {
    event.Suspend?
  }

  /**
   * The job `_run_command` leaves in the table: it has recorded neither a
   * value nor an exception, it is not killed, and it still counts as waited
   * on exactly when it was backgrounded at once (`background()` runs only on
   * ctrl+z).
   */
  predicate FreshJobLeft(job: AsyncCommand, atOnce: bool)
    reads job
  {
    job.result == None && job.exception == None && !job.killed && job.waiting == atOnce
  }

  /**
   * `_run_command`: parse the arguments; a plain command runs its body; an
   * async command becomes a new job that is backgrounded at once when asked
   * to be, and is otherwise waited on with `event` happening meanwhile.
   */
  method RunCommand(entry: Entry, parsed: Parsed, body: BodyOutcome, event: WaitEvent, table: JobTable)
    returns (r: CommandResult)
    requires table.Valid()
    modifies table
    ensures table.Valid()
    ensures parsed.ParseExit? ==> r == Threw(Fault(SystemExit(parsed.code))) && table.jobs == old(table.jobs)
    ensures parsed.Namespace? && !entry.isAsync ==> r == FromBody(body) && table.jobs == old(table.jobs)
    ensures parsed.Namespace? && entry.isAsync ==>
              var p := old(table.nextJobPid);
              table.nextJobPid == p + 1 && p !in old(table.jobs) &&
              table.jobs.Keys == old(table.jobs.Keys) +
                (if parsed.background || entry.isBackground || FreshJobKept(event) then {p} else {}) &&
              (forall q :: q in old(table.jobs) ==> table.jobs[q] == old(table.jobs)[q]) &&
              (p in table.jobs ==> fresh(table.jobs[p]) &&
                                   FreshJobLeft(table.jobs[p], parsed.background || entry.isBackground)) &&
              r == (if parsed.background || entry.isBackground then Threw(BackgroundedJob(p))
                    else FreshJobResult(event, p))
    ensures !(parsed.Namespace? && entry.isAsync) ==> table.nextJobPid == old(table.nextJobPid)
  {
    if parsed.ParseExit? {
      return Threw(Fault(SystemExit(parsed.code)));
    }
    if !entry.isAsync {
      return FromBody(body);
    }
    var job := new AsyncCommand(table);
    if parsed.background || entry.isBackground {
      return Threw(BackgroundedJob(job.jobPid));
    }
    var fg := job.Foreground(table, event);
    r := FromForeground(fg);
  }

  /**
   * The exit code `run_one_command` makes of what `_run_command` did: an
   * output formatter makes a finished command 0, a backgrounded job is 0,
   * a cancelled job and every Exception are 1, SystemExit(222) escapes and
   * any other SystemExit gives its code; otherwise the command's own value.
   */
  function ExitStatus(r: CommandResult, hasFormatter: bool): (st: Status)
    ensures r.Finished? ==> st == Code(if hasFormatter then 0 else r.value)
    ensures r.Threw? && r.error.BackgroundedJob? ==> st == Code(0)
    ensures r.Threw? && r.error.CancelledJob? ==> st == Code(1)
    ensures r.Threw? && r.error.Fault? && IsException(r.error.fault) ==> st == Code(1)
    ensures st == Exit <==> r == Threw(Fault(SystemExit(222)))
    ensures r.Threw? && r.error.Fault? && r.error.fault.SystemExit? && r.error.fault.code != 222 ==>
              st == Code(r.error.fault.code)
  {
    match r
    case Finished(v) => if hasFormatter then Code(0) else Code(v)
    case Threw(BackgroundedJob(_)) => Code(0)
    case Threw(CancelledJob(_)) => Code(1)
    case Threw(Fault(f)) =>
      match f
      case SystemExit(c) => if c == 222 then Exit else Code(c)
      case _ => Code(1)
  }

  /** The outcome of `run_one_command` on a line that resolves to a registered name. */
  predicate Resolves(input: string, names: seq<string>, commands: map<string, Entry>) {
    var name := Resolve(input, names, true);
    name.Some? && name.value in commands
  }

  /**
   * `run_one_command`: resolve the line over the registry's names (exact
   * matches first), give 1 for an unknown command without running anything,
   * otherwise run it on its arguments and map the outcome to an exit code.
   */
  method RunOneCommand(input: string, names: seq<string>, commands: map<string, Entry>,
                       parse: (string, seq<string>) -> Parsed, body: BodyOutcome, event: WaitEvent,
                       table: JobTable) returns (st: Status)
    requires table.Valid()
    modifies table
    ensures table.Valid()
    ensures !Resolves(input, names, commands) ==>
              st == Code(1) && table.jobs == old(table.jobs) && table.nextJobPid == old(table.nextJobPid)
    ensures Resolves(input, names, commands) ==>
              var name := Resolve(input, names, true).value;
              var entry := commands[name];
              var parsed := parse(name, CommandArgs(input, name));
              var p := old(table.nextJobPid);
              (parsed.ParseExit? ==> st == ExitStatus(Threw(Fault(SystemExit(parsed.code))), entry.hasFormatter)) &&
              (parsed.Namespace? && !entry.isAsync ==> st == ExitStatus(FromBody(body), entry.hasFormatter)) &&
              (!(parsed.Namespace? && entry.isAsync) ==>
                 table.jobs == old(table.jobs) && table.nextJobPid == p) &&
              (parsed.Namespace? && entry.isAsync ==>
                 table.nextJobPid == p + 1 && p !in old(table.jobs) &&
                 table.jobs.Keys == old(table.jobs.Keys) +
                   (if parsed.background || entry.isBackground || FreshJobKept(event) then {p} else {}) &&
                 (forall q :: q in old(table.jobs) ==> table.jobs[q] == old(table.jobs)[q]) &&
                 (p in table.jobs ==> FreshJobLeft(table.jobs[p], parsed.background || entry.isBackground))) &&
              (parsed.Namespace? && entry.isAsync && (parsed.background || entry.isBackground) ==> st == Code(0)) &&
              (parsed.Namespace? && entry.isAsync && !parsed.background && !entry.isBackground ==>
                 st == ExitStatus(FreshJobResult(event, old(table.nextJobPid)), entry.hasFormatter))
  {
    var name := GetCommandName(input, names, true);
    if name.None? || name.value !in commands {
      return Code(1);
    }
    var entry := commands[name.value];
    var args := CommandArgs(input, name.value);
    var r := RunCommand(entry, parse(name.value, args), body, event, table);
    st := ExitStatus(r, entry.hasFormatter);
  }
}
