/** `runChildStreams`: stopping a child's process group and reaping it. */
module Containment {

  const SECOND: int := 1000000000
  const KILL_AFTER: int := 2 * SECOND
  const GIVE_UP_AFTER: int := 4 * SECOND

  /** What `/proc` says of the direct child. */
  datatype Leader = Live | Dead | Missing | Unreadable
  /** What a scan of the process group finds. */
  datatype Scan = Clean | Active | ScanFailed
  /** How waiting for the child ends. */
  datatype Wait = Exited | ExitError(code: int) | WaitError | PipesHeld

  /**
   * The answers one turn of the loop gets: inspections, the state of the context, and the
   * clock readings taken on sending TERM, before KILL, on sending TERM after a failed scan
   * and before giving up.
   */
  datatype Turn = Turn(
    leader: Leader, cancelled: bool, termTime: int, killCheck: int,
    scan: Scan, wait: Wait, cancelledAfterWait: bool,
    scanTermTime: int, deadlineCheck: int)

  /** A signal with its clock reading, or the start of reaping. */
  datatype Action = Term(at: int) | Kill(at: int) | Reap

  datatype Outcome =
    | Running            // the loop goes on
    | NoError
    | ChildExit(code: int)
    | ChildFailed        // an unsuccessful end without a code, or a failed inspection
    | ContextError
    | Uncertain
    | NotStarted

  datatype Time = Never | At(t: int)
  datatype State = State(termAt: Time, killAt: Time, inspectionFailed: bool, log: seq<Action>)

  function SendTerm(s: State, now: int): State {
    s.(termAt := At(now), log := s.log + [Term(now)])
  }

  /** The result after a clean scan, once the child has been waited for. */
  function AfterWait(s: State, t: Turn): Outcome {
    if t.wait.PipesHeld? then Uncertain
    else if t.cancelledAfterWait then ContextError
    else if s.inspectionFailed then ChildFailed
    else match t.wait
      case ExitError(code) => ChildExit(code)
      case WaitError => ChildFailed
      case _ => NoError
  }

  /** The first half of a turn: the leader, the context and the two signals. */
  function Signal(s: State, t: Turn): (State, bool) {
    var s := if t.leader.Unreadable? then s.(inspectionFailed := true) else s;
    var stopping := t.cancelled || s.inspectionFailed;
    var s := if stopping && s.termAt.Never? then SendTerm(s, t.termTime) else s;
    var s := if stopping && s.killAt.Never? && s.termAt.At? && t.killCheck - s.termAt.t >= KILL_AFTER
             then s.(killAt := At(t.killCheck), log := s.log + [Kill(t.killCheck)]) else s;
    (s, stopping)
  }

  /** The second half: the group scan, reaping and giving up. */
  function Inspect(s: State, t: Turn): (State, Outcome) {
    if t.scan == Clean then (s.(log := s.log + [Reap]), AfterWait(s, t))
    else
      var s := if t.scan == ScanFailed && s.termAt.Never?
               then SendTerm(s.(inspectionFailed := true), t.scanTermTime) else s;
      if s.termAt.At? && t.deadlineCheck - s.termAt.t >= GIVE_UP_AFTER
      then (if t.leader != Live then s.(log := s.log + [Reap]) else s, Uncertain)
      else (s, Running)
  }

  function OneTurn(s: State, t: Turn): (State, Outcome) {
    var (s, stopping) := Signal(s, t);
    if stopping || t.leader != Live then Inspect(s, t) else (s, Running)
  }

  // ---------- the protocol, told of the schedule ----------

  /** What asks the loop to stop the group. */
  predicate AsksStop(t: Turn) {
    AsksEarly(t) || (t.leader != Live && t.scan == ScanFailed)
  }

  /** What asks for it before the kill check of the same turn. */
  predicate AsksEarly(t: Turn) {
    t.cancelled || t.leader.Unreadable?
  }

  /** A cancelled context stays cancelled. */
  predicate StaysCancelled(turns: seq<Turn>) {
    && (forall i, j :: 0 <= i < j < |turns| && turns[i].cancelled ==> turns[j].cancelled)
    && (forall i :: 0 <= i < |turns| && turns[i].cancelled ==> turns[i].cancelledAfterWait)
  }

  /** The first turn from `i` on that asks for a stop. */
  function FirstAsk(turns: seq<Turn>, i: nat): (k: nat)
    requires i <= |turns|
    ensures i <= k <= |turns| && (k < |turns| ==> AsksStop(turns[k]))
    ensures forall j :: i <= j < k ==> !AsksStop(turns[j])
    decreases |turns| - i
  {
    if i == |turns| || AsksStop(turns[i]) then i else FirstAsk(turns, i + 1)
  }

  /** The turn that sends TERM. */
  function TermTurn(turns: seq<Turn>): (k: nat)
    ensures k <= |turns|
  {
    FirstAsk(turns, 0)
  }

  /** The clock reading TERM is sent with. */
  function TermTime(turns: seq<Turn>): int {
    var k := TermTurn(turns);
    if k == |turns| then 0 else if AsksEarly(turns[k]) then turns[k].termTime else turns[k].scanTermTime
  }

  /** The kill check of turn `j` comes after TERM and reads at least two seconds more. */
  predicate KillDue(turns: seq<Turn>, j: nat)
    requires j < |turns|
  {
    && (TermTurn(turns) < j || (TermTurn(turns) == j && AsksEarly(turns[j])))
    && turns[j].killCheck - TermTime(turns) >= KILL_AFTER
  }

  /** The first turn from `i` on whose kill check is due. */
  function FirstDue(turns: seq<Turn>, i: nat): (k: nat)
    requires i <= |turns|
    ensures i <= k <= |turns| && (k < |turns| ==> KillDue(turns, k))
    ensures forall j :: i <= j < k ==> !KillDue(turns, j)
    decreases |turns| - i
  {
    if i == |turns| || KillDue(turns, i) then i else FirstDue(turns, i + 1)
  }

  /** The signals sent in the first `used` turns, with their readings. */
  function Signals(turns: seq<Turn>, used: nat): seq<Action> {
    var j := FirstDue(turns, 0);
    (if TermTurn(turns) < used <= |turns| then [Term(TermTime(turns))] else [])
    + (if j < used <= |turns| then [Kill(turns[j].killCheck)] else [])
  }

  /** TERM has been sent by the deadline check of turn `j`, which reads four seconds more. */
  predicate DeadlinePassed(turns: seq<Turn>, j: nat)
    requires j < |turns|
  {
    TermTurn(turns) <= j && turns[j].deadlineCheck - TermTime(turns) >= GIVE_UP_AFTER
  }

  /** Turn `j` ends the loop: a clean scan once the child is dead or asked to stop, or the deadline. */
  predicate Stops(turns: seq<Turn>, j: nat)
    requires j < |turns|
  {
    && (TermTurn(turns) <= j || turns[j].leader != Live)
    && (turns[j].scan == Clean || DeadlinePassed(turns, j))
  }

  /** The result that the last turn calls for, by whether a stop has ever been asked for. */
  function Verdict(t: Turn, asked: bool): Outcome {
    if t.scan != Clean || t.wait == PipesHeld then Uncertain
    else if t.cancelledAfterWait then ContextError
    else if asked || t.wait == WaitError then ChildFailed
    else if t.wait.ExitError? then ChildExit(t.wait.code)
    else NoError
  }

  /** The one result, the one log and the one number of turns that a schedule calls for. */
  ghost predicate Contained(turns: seq<Turn>, out: Outcome, log: seq<Action>, used: nat) {
    && used <= |turns|
    && (forall j :: 0 <= j < used ==> (Stops(turns, j) <==> out != Running && j == used - 1))
    && if out == Running then used == |turns| && log == Signals(turns, used)
       else
         && used > 0 && out == Verdict(turns[used - 1], TermTurn(turns) < used)
         && log == Signals(turns, used)
                   + (if turns[used - 1].scan == Clean || turns[used - 1].leader != Live then [Reap] else [])
  }

  // ---------- the loop meets it ----------

  /** The state after the first `i` turns, none of which has ended the loop. */
  ghost predicate After(s: State, turns: seq<Turn>, i: nat) {
    && i <= |turns|
    && (forall j :: 0 <= j < i ==> !Stops(turns, j))
    && s.termAt == (if TermTurn(turns) < i then At(TermTime(turns)) else Never)
    && s.killAt == (if FirstDue(turns, 0) < i then At(turns[FirstDue(turns, 0)].killCheck) else Never)
    && s.log == Signals(turns, i)
    && (s.inspectionFailed ==> s.termAt.At?)
    && (s.termAt.At? ==> s.inspectionFailed || turns[i - 1].cancelled)
  }

  lemma TermHere(turns: seq<Turn>, i: nat)
    requires i < |turns|
    ensures AsksEarly(turns[i]) ==> TermTurn(turns) <= i
    ensures AsksEarly(turns[i]) && TermTurn(turns) == i ==> TermTime(turns) == turns[i].termTime
  {
  }

  lemma DueHere(turns: seq<Turn>, i: nat)
    requires i < |turns|
    ensures FirstDue(turns, 0) <= i <==> FirstDue(turns, 0) < i || KillDue(turns, i)
    ensures KillDue(turns, i) <==> (TermTurn(turns) < i || (TermTurn(turns) == i && AsksEarly(turns[i])))
                                   && turns[i].killCheck - TermTime(turns) >= KILL_AFTER
    ensures FirstDue(turns, 0) < i ==> TermTurn(turns) < i
  {
  }

  /** The first half of turn `i`. */
  lemma SignalSends(s: State, turns: seq<Turn>, i: nat)
    requires i < |turns| && StaysCancelled(turns) && After(s, turns, i)
    ensures var (s', stopping) := Signal(s, turns[i]);
            && (stopping <==> TermTurn(turns) < i || AsksEarly(turns[i]))
            && s'.termAt == (if stopping then At(TermTime(turns)) else Never)
            && s'.killAt == (if FirstDue(turns, 0) <= i then At(turns[FirstDue(turns, 0)].killCheck) else Never)
            && s'.log == (if stopping then [Term(TermTime(turns))] else [])
                         + (if FirstDue(turns, 0) <= i then [Kill(turns[FirstDue(turns, 0)].killCheck)] else [])
            && (s'.inspectionFailed <==> s.inspectionFailed || turns[i].leader.Unreadable?)
            && (stopping <==> turns[i].cancelled || s'.inspectionFailed)
  {
    TermHere(turns, i);
    DueHere(turns, i);
    hide Stops, DeadlinePassed, Verdict, TermTurn, TermTime, FirstAsk, FirstDue, KillDue;
  }

  lemma TurnTaken(s: State, turns: seq<Turn>, i: nat)
    requires i < |turns| && StaysCancelled(turns) && After(s, turns, i)
    ensures var (s', out) := OneTurn(s, turns[i]);
            if out == Running then After(s', turns, i + 1) else Contained(turns, out, s'.log, i + 1)
  {
    SignalSends(s, turns, i);
  }

  /**
   * `runChildStreams` under any schedule of answers. The turns given may be any beginning
   * of a run; `Running` says that the loop has used them up and goes on.
   */
  method RunChildStreams(cancelledBefore: bool, starts: bool, turns: seq<Turn>)
      returns (out: Outcome, log: seq<Action>, used: nat)
    requires StaysCancelled(turns)
    ensures cancelledBefore ==> out == ContextError && log == []
    ensures !cancelledBefore && !starts ==> out == NotStarted && log == []
    ensures !cancelledBefore && starts ==> Contained(turns, out, log, used)
  {
    hide Contained, After, OneTurn;
    if cancelledBefore {
      return ContextError, [], 0;
    }
    if !starts {
      return NotStarted, [], 0;
    }
    var s := State(Never, Never, false, []);
    Start(turns);
    for i := 0 to |turns|
      invariant After(s, turns, i)
    {
      TurnTaken(s, turns, i);
      var (next, result) := OneTurn(s, turns[i]);
      if result != Running {
        return result, next.log, i + 1;
      }
      s := next;
    }
    StillRunning(s, turns);
    return Running, s.log, |turns|;
  }

  lemma Start(turns: seq<Turn>)
    ensures After(State(Never, Never, false, []), turns, 0)
  {
  }

  lemma StillRunning(s: State, turns: seq<Turn>)
    requires After(s, turns, |turns|)
    ensures Contained(turns, Running, s.log, |turns|)
  {
  }

  // ---------- what follows for the signals ----------

  /** TERM at most once, then KILL at most once and not before 2 s, then at most reaping. */
  ghost predicate ProperLog(log: seq<Action>) {
    || log == [] || log == [Reap]
    || (exists a :: log == [Term(a)] || log == [Term(a), Reap])
    || (exists a, b :: b - a >= KILL_AFTER && (log == [Term(a), Kill(b)] || log == [Term(a), Kill(b), Reap]))
  }

  /** The signals come in order, with their readings, and only to a group asked to stop. */
  lemma SignalsInOrder(turns: seq<Turn>, out: Outcome, log: seq<Action>, used: nat)
    requires Contained(turns, out, log, used)
    ensures ProperLog(log)
    ensures forall a :: Term(a) in log <==> TermTurn(turns) < used && a == TermTime(turns)
    ensures forall b :: Kill(b) in log <==> FirstDue(turns, 0) < used && b == turns[FirstDue(turns, 0)].killCheck
    ensures out == NoError || out.ChildExit? ==> log == [Reap] && turns[used - 1].scan == Clean
  {
    var sent := Signals(turns, used);
    assert TermTurn(turns) >= used ==> FirstDue(turns, 0) >= used;
    assert log == sent || log == sent + [Reap];
  }

  /** KILL is sent exactly if some kill check after TERM reads two seconds or more. */
  lemma KillExactly(turns: seq<Turn>, out: Outcome, log: seq<Action>, used: nat)
    requires Contained(turns, out, log, used)
    ensures (exists b :: Kill(b) in log) <==> (exists j :: 0 <= j < used && KillDue(turns, j))
  {
  }

  /** No turn but the last has read four seconds after TERM. */
  lemma EndsByTheDeadline(turns: seq<Turn>, out: Outcome, log: seq<Action>, used: nat, j: nat)
    requires Contained(turns, out, log, used) && j < used && DeadlinePassed(turns, j)
    ensures out != Running && j == used - 1
  {
    assert Stops(turns, j);
  }

  /** Readings of one clock, taken one after the other. */
  predicate Monotone(turns: seq<Turn>) {
    forall i, j :: 0 <= i < j < |turns| ==> turns[i].killCheck <= turns[j].killCheck
  }

  /**
   * A loop that gives up has sent KILL exactly if the last turn read two seconds or more
   * before its scan: only a scan that takes the time up to the deadline can prevent it.
   */
  lemma KillBeforeGivingUp(turns: seq<Turn>, out: Outcome, log: seq<Action>, used: nat)
    requires Contained(turns, out, log, used) && Monotone(turns)
    requires out != Running && turns[used - 1].scan != Clean
    ensures (exists b :: Kill(b) in log) <==> KillDue(turns, used - 1)
  {
  }

  // ---------- the same, told of the answers and the readings alone ----------

  /** A request to stop, by the answers of a turn. */
  predicate StopAsked(t: Turn) {
    t.cancelled || t.leader == Unreadable || (t.leader != Live && t.scan == ScanFailed)
  }

  /** A request to stop in the first `used` turns. */
  predicate StopAskedBy(turns: seq<Turn>, used: int) {
    exists j :: 0 <= j < used <= |turns| && StopAsked(turns[j])
  }

  lemma AskedExactly(turns: seq<Turn>, used: nat)
    requires used <= |turns|
    ensures StopAskedBy(turns, used) <==> TermTurn(turns) < used
  {
  }

  /** What each result means: how the last turn's scan and wait ended, and whether anything asked for a stop. */
  lemma OutcomeExactly(turns: seq<Turn>, out: Outcome, log: seq<Action>, used: nat)
    requires Contained(turns, out, log, used) && out != Running
    ensures 0 < used <= |turns|
    ensures var t, asked := turns[used - 1], StopAskedBy(turns, used);
            && (out == NoError <==> t.scan == Clean && t.wait == Exited && !t.cancelledAfterWait && !asked)
            && (forall c :: out == ChildExit(c) <==>
                  t.scan == Clean && t.wait == ExitError(c) && !t.cancelledAfterWait && !asked)
            && (out == ContextError <==> t.scan == Clean && t.wait != PipesHeld && t.cancelledAfterWait)
            && (out == ChildFailed <==>
                  t.scan == Clean && t.wait != PipesHeld && !t.cancelledAfterWait && (asked || t.wait == WaitError))
            && (out == Uncertain <==> t.scan != Clean || t.wait == PipesHeld)
            && (Reap in log <==> t.scan == Clean || t.leader != Live)
  {
  }

  /**
   * The loop ends in the first turn whose scan is clean or whose reading is 4 s after TERM,
   * once the leader is gone or a stop has been asked for.
   */
  lemma EndsByReadings(turns: seq<Turn>, out: Outcome, log: seq<Action>, used: nat, j: nat)
    requires Contained(turns, out, log, used) && j < used
    ensures j < |turns|
    ensures out != Running && j == used - 1 <==>
            (StopAskedBy(turns, j + 1) || turns[j].leader != Live)
            && (turns[j].scan == Clean
                || exists a :: Term(a) in log && StopAskedBy(turns, j + 1) && turns[j].deadlineCheck - a >= 4000000000)
    ensures out == Running ==> used == |turns| && Reap !in log
  {
    SignalsInOrder(turns, out, log, used);
    AskedExactly(turns, j + 1);
    assert Stops(turns, j) <==> out != Running && j == used - 1;
  }

  /** Turn `k` is the first that asks for a stop, and `a` its clock reading for TERM. */
  predicate FirstAsks(turns: seq<Turn>, k: int, a: int) {
    && 0 <= k < |turns| && StopAsked(turns[k]) && !StopAskedBy(turns, k)
    && a == if turns[k].cancelled || turns[k].leader == Unreadable then turns[k].termTime else turns[k].scanTermTime
  }

  /** The kill check of turn `j` is made when a stop has been asked for, 2 s or more after the reading `a`. */
  predicate ReadsTwoSeconds(turns: seq<Turn>, j: int, a: int) {
    && 0 <= j < |turns| && turns[j].killCheck - a >= 2000000000
    && (StopAskedBy(turns, j) || turns[j].cancelled || turns[j].leader == Unreadable)
  }

  /** TERM is sent exactly if a stop is asked for, with the reading of the first turn that asks. */
  lemma TermByReadings(turns: seq<Turn>, out: Outcome, log: seq<Action>, used: nat)
    requires Contained(turns, out, log, used)
    ensures (exists a :: Term(a) in log) <==> StopAskedBy(turns, used)
    ensures forall a :: Term(a) in log ==> exists k :: 0 <= k < used && FirstAsks(turns, k, a)
  {
    SignalsInOrder(turns, out, log, used);
    UsedTurns(turns, out, log, used);
    hide Contained, FirstDue, Signals, Verdict;
    AskedExactly(turns, used);
    if TermTurn(turns) < used {
      AskedExactly(turns, TermTurn(turns));
      assert Term(TermTime(turns)) in log;
      assert FirstAsks(turns, TermTurn(turns), TermTime(turns));
    }
  }

  /** KILL is sent exactly if a kill check after TERM reads 2 s or more, and with such a reading. */
  lemma KillByReadings(turns: seq<Turn>, out: Outcome, log: seq<Action>, used: nat, a: int)
    requires Contained(turns, out, log, used) && Term(a) in log
    ensures (exists b :: Kill(b) in log) <==> exists j :: 0 <= j < used && ReadsTwoSeconds(turns, j, a)
    ensures forall b :: Kill(b) in log ==> b - a >= 2000000000
  {
    SignalsInOrder(turns, out, log, used);
    UsedTurns(turns, out, log, used);
    KillExactly(turns, out, log, used);
    hide Contained, Signals, Verdict;
    forall j | 0 <= j < used ensures KillDue(turns, j) <==> ReadsTwoSeconds(turns, j, a) {
      AskedExactly(turns, j);
      AskedExactly(turns, j + 1);
    }
  }

  /** The loop ends in the first turn that reads 4 s after TERM. */
  lemma DeadlineByReadings(turns: seq<Turn>, out: Outcome, log: seq<Action>, used: nat, a: int, j: nat)
    requires Contained(turns, out, log, used) && Term(a) in log
    requires j < used && StopAskedBy(turns, j + 1) && turns[j].deadlineCheck - a >= 4000000000
    ensures j == used - 1 && out != Running
  {
    SignalsInOrder(turns, out, log, used);
    AskedExactly(turns, j + 1);
    EndsByTheDeadline(turns, out, log, used, j);
  }

  lemma UsedTurns(turns: seq<Turn>, out: Outcome, log: seq<Action>, used: nat)
    requires Contained(turns, out, log, used)
    ensures used <= |turns|
  {
  }

  /** KILL is not certain to be sent before the loop gives up. */
  lemma GivesUpWithoutKill()
    ensures exists turns :: StaysCancelled(turns) && Monotone(turns) && Contained(turns, Uncertain, [Term(0)], 2)
  {
    var first := Turn(Live, true, 0, 0, Active, Exited, true, 0, 0);
    var second := Turn(Live, true, 0, KILL_AFTER - 1, Active, Exited, true, 0, GIVE_UP_AFTER);
    var turns := [first, second];
    assert TermTurn(turns) == 0 && FirstDue(turns, 0) == 2;
    assert Contained(turns, Uncertain, [Term(0)], 2);
  }
}
