/** The installer's stage machine (installer/mica-installer.c): what the backend reports, what the
    user does, and when "Complete" and "Restart" open. */
module InstallerGate {
  import opened Wrappers

  datatype Stage = Welcome | Select | Confirm | Installing | Verifying | Summary | Complete | Failed

  datatype Disk = Disk(name: string, size: nat, live: bool, removable: bool)

  /** A line of the backend, as parse_backend_line understands it. A Verify line whose fields do not
      parse carries no report. */
  datatype Message =
    | Failure
    | StateVerifying
    | StateCompleted
    | Verify(report: Option<Report>)
    | VerificationSummary
    | Progress(step: int, percent: int, verifying: bool)
    | Other

  /** check is the summary entry the domain names, if any. */
  datatype Report = Report(percent: int, check: Option<nat>, pass: bool)

  datatype Exit = Exited(code: nat) | Signalled

  /** What the system answers: which disks revalidate, what a probe finds, whether a backend starts. */
  datatype Launch = Started(pid: int) | NoBackend | NoPipe | NoFork
  datatype Env = Env(present: Disk -> bool, disks: seq<Disk>, launch: Launch)

  datatype Spot =
    | ContinueSpot | BackSpot | Row(index: nat) | EraseBox | CompleteSpot | RestartSpot
    | RetrySpot | RepairSpot | DetailsSpot | Elsewhere

  datatype ErrorButton = NoButton | Retry | Repair | Details

  datatype Press = Press(go: bool, back: bool, aux: bool, complete: bool, error: ErrorButton)
  const Released := Press(false, false, false, false, NoButton)

  datatype Key = Quit | Return | Space | AnyKey

  datatype Event =
    | Tick(lines: seq<Message>, exit: Option<Exit>, more: seq<Message>, last: Option<Message>)
    | KeyPress(key: Key)
    | Down(at: Spot)
    | Up(at: Spot)
    | Click(at: Spot)

  const CHECKS := 10

  /** INSTALL_PID, INSTALL_FD, INSTALL_TIMER, BACKEND_ACTIVE, BACKEND_FAILED. */
  datatype Backend = Backend(pid: int, fd: bool, timer: bool, active: bool, failed: bool)

  /** INSTALL_PROGRESS, BACKEND_VERIFIED, SUMMARY_CHECKS, and the history they speak of: the number of
      the current run, the lines heard from it, how it ended and how many lines had been heard when the
      system reported its end. */
  datatype Ledger = Ledger(
    progress: int, verified: bool, checks: seq<bool>, run: nat, heard: seq<Message>, exit: Option<Exit>, ended: nat)

  /** DISKS, TARGET_DISK_IDX, CONFIRMED_ERASE, and the history: the disk the box was last ticked for
      and whether the disks were probed again since. */
  datatype Choice = Choice(
    disks: seq<Disk>, target: int, confirmed: bool, agreed: Option<Disk>, reprobed: bool)

  datatype State = State(
    stage: Stage, be: Backend, led: Ledger, ch: Choice, press: Press, quit: bool, restarted: bool)

  // ------------------------------------------------------------------ backend

  /** set_failure. */
  function Fail(s: State): State {
    s.(stage := Failed, be := Backend(if s.be.pid > 0 then -1 else s.be.pid, false, false, false, true))
  }

  /** The stages of apply_progress_event that count as verification. */
  predicate Late(step: int, percent: int, verifying: bool) {
    verifying || (!(1 <= step <= 7) && 80 <= percent < 100)
  }

  /** apply_progress_event. */
  function Advance(s: State, step: int, percent: int, verifying: bool): State {
    if percent < s.led.progress || percent > 100 then s
    else s.(led := s.led.(progress := percent),
            stage := if Late(step, percent, verifying) && s.stage == Installing then Verifying else s.stage)
  }

  function Marked(checks: seq<bool>, check: Option<nat>, pass: bool): (r: seq<bool>)
    ensures |r| == |checks|
  {
    if check.Some? && check.value < |checks| then checks[check.value := pass] else checks
  }

  function AllPassed(): seq<bool> { seq(CHECKS, _ => true) }
  function NonePassed(): seq<bool> { seq(CHECKS, _ => false) }

  /** What a line changes in the ledger. */
  function Noted(l0: Ledger, m: Message): Ledger {
    var l := l0.(heard := l0.heard + [m]);
    match m
    case StateCompleted => l.(verified := true)
    case Verify(Some(r)) =>
      l.(progress := if r.percent > l.progress then r.percent else l.progress,
         checks := Marked(l.checks, r.check, r.pass))
    case VerificationSummary => l.(checks := AllPassed(), verified := true)
    case Progress(_, percent, _) =>
      if percent < l.progress || percent > 100 then l else l.(progress := percent)
    case _ => l
  }

  /** A line that calls set_failure. */
  predicate Fails(m: Message) {
    m == Failure || (m.Verify? && m.report.Some? && !m.report.value.pass)
  }

  /** A line that sets the stage to Verifying whatever it was. */
  predicate Moves(m: Message) { m == StateVerifying || (m.Verify? && !Fails(m)) }

  /** parse_backend_line. */
  function Hear(s: State, m: Message): State {
    var l := Noted(s.led, m);
    match m
    case Progress(step, percent, verifying) =>
      Advance(s, step, percent, verifying).(led := l)
    case _ =>
      if Fails(m) then Fail(s).(led := l)
      else if Moves(m) then s.(stage := Verifying, led := l)
      else s.(led := l)
  }

  function HearAll(s: State, lines: seq<Message>): State {
    if lines == [] then s else Hear(HearAll(s, lines[..|lines| - 1]), lines[|lines| - 1])
  }

  /** drain_backend_output. */
  function Drained(s: State, lines: seq<Message>): State { if s.be.fd then HearAll(s, lines) else s }

  /** The lines still in the pipe when the backend has ended, and the unterminated last one. */
  function Flushed(s: State, more: seq<Message>, last: Option<Message>): State {
    var t := Drained(s, more);
    if t.be.fd && last.Some? then Hear(t, last.value) else t
  }

  /** finish_backend_if_needed. */
  function Finished(s: State, exit: Option<Exit>, more: seq<Message>, last: Option<Message>): State {
    if s.be.pid <= 0 || exit.None? then s
    else Ended(Flushed(s, more, last), exit.value, |s.led.heard|)
  }

  /** The end of the backend, reported after `at` lines. */
  function Ended(s: State, exit: Exit, at: nat): State {
    var be := s.be.(pid := -1, active := false, fd := false);
    if exit == Exited(0) && s.led.progress >= 100 then
      s.(stage := Summary, be := be.(timer := false),
         led := s.led.(verified := true, progress := 100, exit := Some(exit), ended := at))
    else
      var t := s.(be := be, led := s.led.(exit := Some(exit), ended := at));
      if !t.be.failed then Fail(t) else t
  }

  /** install_gui_tick, called while its timer is armed. */
  function Ticked(s: State, lines: seq<Message>, exit: Option<Exit>, more: seq<Message>,
                  last: Option<Message>): State
  {
    if !s.be.timer || (s.stage != Installing && s.stage != Verifying) then s
    else Finished(Drained(s, lines), exit, more, last)
  }

  /** The disk probe_disks preselects: the first fixed one that is not the live medium, else the
      first that is not. */
  function FirstFixed(disks: seq<Disk>, i: nat): (r: int)
    requires i <= |disks|
    ensures r == -1 || (i <= r < |disks| && !disks[r].live && !disks[r].removable)
    decreases |disks| - i
  {
    if i == |disks| then -1 else if !disks[i].live && !disks[i].removable then i else FirstFixed(disks, i + 1)
  }

  function FirstUsable(disks: seq<Disk>, i: nat): (r: int)
    requires i <= |disks|
    ensures r == -1 || (i <= r < |disks| && !disks[r].live)
    decreases |disks| - i
  {
    if i == |disks| then -1 else if !disks[i].live then i else FirstUsable(disks, i + 1)
  }

  function Preselected(disks: seq<Disk>): (r: int)
    ensures r == -1 || (0 <= r < |disks| && !disks[r].live)
  {
    if FirstFixed(disks, 0) >= 0 then FirstFixed(disks, 0) else FirstUsable(disks, 0)
  }

  /** probe_disks. */
  function Probed(ch: Choice, disks: seq<Disk>): Choice {
    ch.(disks := disks, target := Preselected(disks), reprobed := true)
  }

  predicate Targets(ch: Choice) { 0 <= ch.target < |ch.disks| }

  /** start_backend. */
  function StartedBackend(s: State, env: Env, repair: bool): State {
    if s.be.active || !Targets(s.ch) || (!repair && !s.ch.confirmed) then s
    else if !env.present(s.ch.disks[s.ch.target]) then Fail(s).(ch := Probed(s.ch, env.disks))
    else if !env.launch.Started? || env.launch.pid <= 0 then Fail(s)
    else
      s.(stage := Installing, be := Backend(env.launch.pid, true, true, true, false),
         led := Ledger(0, false, NonePassed(), s.led.run + 1, [], None, 0))
  }

  // --------------------------------------------------------------------- user

  function ActivatedContinue(s: State, env: Env): State {
    if s.stage == Welcome then
      s.(stage := Select, ch := Probed(s.ch.(target := -1, confirmed := false), env.disks))
    else if s.stage == Select then
      if !Targets(s.ch) then Fail(s)
      else if s.ch.disks[s.ch.target].live || !env.present(s.ch.disks[s.ch.target]) then
        Fail(s).(ch := Probed(s.ch, env.disks))
      else s.(stage := Confirm, ch := s.ch.(confirmed := false))
    else s
  }

  function ActivatedBack(s: State): State {
    if s.stage == Confirm then s.(stage := Select, ch := s.ch.(confirmed := false))
    else if s.stage == Select then s.(stage := Welcome, ch := s.ch.(target := -1, confirmed := false))
    else s
  }

  /** summary_verification_ready. */
  predicate Ready(s: State) {
    && s.stage == Summary && s.led.verified && !s.be.active && s.be.pid <= 0 && s.led.progress >= 100
    && s.led.checks == AllPassed()
  }

  function ActivatedComplete(s: State): State {
    if Ready(s) then s.(stage := Complete, press := s.press.(complete := false)) else s
  }

  predicate ContinueHit(s: State, at: Spot) { at == ContinueSpot && (s.stage == Welcome || s.stage == Select) }
  predicate BackHit(s: State, at: Spot) { at == BackSpot && (s.stage == Select || s.stage == Confirm) }
  predicate CompleteHit(s: State, at: Spot) { at == CompleteSpot && s.stage == Summary }

  /** The erase box is ticked or cleared; ticking it is the user's consent for the target. */
  function Toggled(ch: Choice): Choice {
    if ch.confirmed then ch.(confirmed := false)
    else ch.(confirmed := true, reprobed := false,
             agreed := if Targets(ch) then Some(ch.disks[ch.target]) else ch.agreed)
  }

  function ChosenRow(s: State, env: Env, i: nat): State {
    if i >= |s.ch.disks| || s.ch.disks[i].live then s
    else if env.present(s.ch.disks[i]) then s.(ch := s.ch.(target := i, confirmed := false))
    else Fail(s).(ch := Probed(s.ch, env.disks))
  }

  function PressedAux(s: State, error: ErrorButton): State {
    s.(press := s.press.(aux := true, error := if error == NoButton then s.press.error else error))
  }

  /** A press that hits neither Continue nor Back. */
  function PressedOther(s: State, env: Env, at: Spot): State {
    match s.stage
    case Select => if at.Row? then ChosenRow(s, env, at.index) else s
    case Confirm => if at == EraseBox then PressedAux(s, NoButton).(ch := Toggled(s.ch)) else s
    case Summary => if CompleteHit(s, at) && Ready(s) then s.(press := s.press.(complete := true)) else s
    case Complete => if at == RestartSpot then PressedAux(s, NoButton) else s
    case Failed =>
      if at == RetrySpot then PressedAux(s, Retry)
      else if at == RepairSpot then PressedAux(s, Repair)
      else if at == DetailsSpot then PressedAux(s, Details)
      else s
    case _ => s
  }

  function PressedDown(s0: State, env: Env, at: Spot): State {
    var s := s0.(press := Press(false, false, false, false, s0.press.error));
    if ContinueHit(s, at) then s.(press := s.press.(go := true))
    else if BackHit(s, at) then s.(press := s.press.(back := true))
    else PressedOther(s, env, at)
  }

  /** Releasing after a press of the erase box, the restart button or an error button. */
  function ReleasedAux(s: State, env: Env, was: ErrorButton, at: Spot): State {
    match s.stage
    case Confirm => if s.ch.confirmed then StartedBackend(s, env, false) else s
    case Complete =>
      if at == RestartSpot && s.led.verified && s.led.progress >= 100 then s.(restarted := true, quit := true) else s
    case Failed =>
      if was == Retry || at == RetrySpot then Restarted(s, env, false)
      else if was == Repair || at == RepairSpot then Restarted(s, env, true)
      else s
    case _ => s
  }

  /** Retry and Repair. */
  function Restarted(s: State, env: Env, repair: bool): State {
    StartedBackend(s.(be := Backend(-1, false, false, false, false)), env, repair)
  }

  function ReleasedUp(s0: State, env: Env, at: Spot): State {
    var was := s0.press;
    var s := s0.(press := Released);
    if was.go && ContinueHit(s, at) then ActivatedContinue(s, env)
    else if was.back && BackHit(s, at) then ActivatedBack(s)
    else if was.complete && CompleteHit(s, at) && Ready(s) then ActivatedComplete(s)
    else if was.aux then ReleasedAux(s, env, was.error, at)
    else s
  }

  function Clicked(s: State, env: Env, at: Spot): State {
    if ContinueHit(s, at) then ActivatedContinue(s, env)
    else if BackHit(s, at) then ActivatedBack(s)
    else if CompleteHit(s, at) && Ready(s) then ActivatedComplete(s)
    else s
  }

  function Keyed(s: State, env: Env, key: Key): State {
    match key
    case Quit => if s.stage == Installing || s.stage == Verifying then s else s.(quit := true)
    case Space => if s.stage == Confirm then s.(ch := Toggled(s.ch)) else ActivatedContinue(s, env)
    case Return => ActivatedContinue(s, env)
    case AnyKey => s
  }

  function Step(s: State, env: Env, e: Event): State {
    if s.quit then s else
      match e
      case Tick(lines, exit, more, last) => Ticked(s, lines, exit, more, last)
      case KeyPress(key) => Keyed(s, env, key)
      case Down(at) => PressedDown(s, env, at)
      case Up(at) => ReleasedUp(s, env, at)
      case Click(at) => Clicked(s, env, at)
  }

  // ---------------------------------------------------------------- evidence

  /** The last word of the lines heard on check i. */
  predicate Passed(heard: seq<Message>, i: nat) {
    heard != [] &&
    var m := heard[|heard| - 1];
    if m == VerificationSummary then true
    else if m.Verify? && m.report.Some? && m.report.value.check == Some(i) then m.report.value.pass
    else Passed(heard[..|heard| - 1], i)
  }

  predicate Evident(l: Ledger) {
    |l.checks| == CHECKS && forall i :: 0 <= i < CHECKS ==> l.checks[i] == Passed(l.heard, i)
  }

  /** A backend runs, its pipe is open and its timer armed: all or none. */
  predicate Coupled(s: State) {
    && s.be.active == (s.be.pid > 0) == s.be.timer == s.be.fd
    && (s.be.active ==> (s.stage == Installing || s.stage == Verifying) && !s.be.failed)
    && (s.stage == Installing ==> s.be.active)
  }

  /** What Summary and Complete stand for: the current run ended with status 0 at full progress. */
  predicate Gated(s: State) {
    && (s.stage == Summary || s.stage == Complete ==>
          s.led.verified && s.led.progress >= 100 && s.led.exit == Some(Exited(0)))
    && (s.stage == Complete ==> s.led.checks == AllPassed())
    && (s.restarted ==> s.stage == Complete)
  }

  /** The target is never the live medium, and consent is for the target unless the disks were
      probed again since it was given. */
  predicate Consented(stage: Stage, ch: Choice) {
    && (ch.target == -1 || (Targets(ch) && !ch.disks[ch.target].live))
    && (stage == Welcome || stage == Select ==> !ch.confirmed)
    && (stage == Confirm ==> Targets(ch) && (ch.confirmed ==> !ch.reprobed))
    && (ch.confirmed && ch.reprobed ==> ch.target == Preselected(ch.disks))
    && (ch.confirmed && !ch.reprobed ==> Targets(ch) && ch.agreed == Some(ch.disks[ch.target]))
  }

  /** A running backend has reported no failure. In Summary and Complete every failure line came after
      the system had reported the backend's end. */
  predicate Forgiving(s: State) {
    && (s.be.active ==> !AnyFails(s.led.heard))
    && (s.stage == Summary || s.stage == Complete ==>
          && s.led.ended <= |s.led.heard| && !AnyFails(s.led.heard[..s.led.ended])
          && (s.be.failed <==> AnyFails(s.led.heard[s.led.ended..])))
  }

  predicate Inv(s: State) {
    Coupled(s) && Evident(s.led) && Gated(s) && Consented(s.stage, s.ch) && Forgiving(s)
  }

  function Initial(disks: seq<Disk>): State {
    State(Welcome, Backend(-1, false, false, false, false), Ledger(0, false, NonePassed(), 0, [], None, 0),
          Choice(disks, Preselected(disks), false, None, false), Released, false, false)
  }

  // --------------------------------------------------- what a batch of lines does

  predicate AnyFails(lines: seq<Message>) { exists i :: 0 <= i < |lines| && Fails(lines[i]) }

  /** The last line that fails or moves is one that moves. */
  predicate EndsMoving(lines: seq<Message>) {
    lines != [] &&
    var m := lines[|lines| - 1];
    if Moves(m) then true else if Fails(m) then false else EndsMoving(lines[..|lines| - 1])
  }

  /** What lines change and leave alone, from a state in which a backend runs. */
  predicate HeardFrom(s: State, failed: bool, moving: bool, t: State) {
    && t.ch == s.ch && t.press == s.press && t.quit == s.quit && t.restarted == s.restarted
    && t.led.run == s.led.run && t.led.exit == s.led.exit && t.be.failed == failed
    && t.be.active == (t.be.pid > 0) == t.be.timer == t.be.fd == !failed
    && (!failed ==> t.stage == Installing || t.stage == Verifying)
    && (failed ==> t.stage == if moving then Verifying else Failed)
  }

  lemma EvidentNoted(l: Ledger, m: Message)
    requires Evident(l)
    ensures Evident(Noted(l, m)) && Noted(l, m).heard == l.heard + [m]
  {
    var n := Noted(l, m);
    forall i | 0 <= i < CHECKS ensures n.checks[i] == Passed(n.heard, i) {
      PassedNext(l.heard, m, i);
    }
  }

  lemma PassedNext(heard: seq<Message>, m: Message, i: nat)
    ensures Passed(heard + [m], i) ==
            if m == VerificationSummary then true
            else if m.Verify? && m.report.Some? && m.report.value.check == Some(i) then m.report.value.pass
            else Passed(heard, i)
  {
    assert (heard + [m])[..|heard|] == heard;
  }

  lemma HeardStep(s: State, failed: bool, moving: bool, t: State, m: Message)
    requires HeardFrom(s, failed, moving, t)
    ensures HeardFrom(s, failed || Fails(m), if Moves(m) then true else if Fails(m) then false else moving, Hear(t, m))
    ensures Hear(t, m).led == Noted(t.led, m)
  {
  }

  lemma AnyFailsAppend(lines: seq<Message>)
    requires lines != []
    ensures AnyFails(lines) <==> AnyFails(lines[..|lines| - 1]) || Fails(lines[|lines| - 1])
  {
    var front := lines[..|lines| - 1];
    if i :| 0 <= i < |front| && Fails(front[i]) { assert Fails(lines[i]); }
  }

  lemma AnyFailsConcat(a: seq<Message>, b: seq<Message>)
    ensures AnyFails(a + b) <==> AnyFails(a) || AnyFails(b)
  {
    if i :| 0 <= i < |a| && Fails(a[i]) { assert Fails((a + b)[i]); }
    if i :| 0 <= i < |b| && Fails(b[i]) { assert Fails((a + b)[|a| + i]); }
  }

  /** What lines change in the ledger, one after the other. */
  function NotedAll(l: Ledger, lines: seq<Message>): Ledger {
    if lines == [] then l else Noted(NotedAll(l, lines[..|lines| - 1]), lines[|lines| - 1])
  }

  lemma {:induction false} HeardBatch(s: State, lines: seq<Message>)
    requires HeardFrom(s, false, false, s) && Evident(s.led)
    ensures var t := HearAll(s, lines);
            && HeardFrom(s, AnyFails(lines), EndsMoving(lines), t)
            && Evident(t.led) && t.led.heard == s.led.heard + lines && t.led == NotedAll(s.led, lines)
    decreases |lines|
  {
    if lines == [] {
      assert s.led.heard + [] == s.led.heard;
    } else {
      var front, m := lines[..|lines| - 1], lines[|lines| - 1];
      HeardBatch(s, front);
      var t := HearAll(s, front);
      HeardStep(s, AnyFails(front), EndsMoving(front), t, m);
      AnyFailsAppend(lines);
      EvidentNoted(t.led, m);
      assert s.led.heard + lines == s.led.heard + front + [m];
    }
  }

  /** Stuck in Verifying with no backend and no timer. */
  predicate Trapped(s: State) { s.stage == Verifying && !s.be.active && !s.be.timer && !s.quit }

  /** No event leaves the trap: neither the timer nor any button nor the quit key. */
  lemma TrapIsPermanent(s: State, env: Env, e: Event)
    requires Trapped(s)
    ensures Trapped(Step(s, env, e))
  {
  }

  /** The lines heard after the backend's end was reported: the unterminated last one only if none
      before it has closed the channel. */
  function Tail(more: seq<Message>, last: Option<Message>): seq<Message> {
    if last.Some? && !AnyFails(more) then more + [last.value] else more
  }

  lemma FlushHeard(s: State, more: seq<Message>, last: Option<Message>)
    requires HeardFrom(s, false, false, s) && Evident(s.led)
    ensures var t, tail := Flushed(s, more, last), Tail(more, last);
            && HeardFrom(s, AnyFails(tail), EndsMoving(tail), t)
            && Evident(t.led) && t.led.heard == s.led.heard + tail && t.led == NotedAll(s.led, tail)
  {
    HeardBatch(s, more);
    HeardBatch(s, Tail(more, last));
    if last.Some? && !AnyFails(more) { assert (more + [last.value])[..|more|] == more; }
  }

  /** What a line that arrives late can still do. */
  lemma TailMoves(more: seq<Message>, last: Option<Message>)
    ensures var tail := Tail(more, last);
            && (AnyFails(tail) <==> AnyFails(more) || (last.Some? && Fails(last.value)))
            && (AnyFails(tail) && EndsMoving(tail) <==> AnyFails(more) && EndsMoving(more))
  {
    if last.Some? && !AnyFails(more) {
      var tail := more + [last.value];
      assert tail[..|more|] == more;
      AnyFailsAppend(tail);
    }
  }

  /** The backend ended with status 0 and its lines reached full progress. */
  predicate Passes(l: Ledger, lines: seq<Message>, exit: Option<Exit>, more: seq<Message>, last: Option<Message>) {
    exit == Some(Exited(0)) && NotedAll(NotedAll(l, lines), Tail(more, last)).progress >= 100
  }

  /** Where a tick of a running backend leads, for every tick. It is stuck exactly if a line failed and
      a later one moved the stage on, before the end was reported, or after it when the end does not
      pass. */
  lemma TrapExactly(s: State, lines: seq<Message>, exit: Option<Exit>, more: seq<Message>, last: Option<Message>)
    requires Inv(s) && s.be.active && !s.quit
    ensures var t, passes := Ticked(s, lines, exit, more, last), Passes(s.led, lines, exit, more, last);
            && (Trapped(t) <==>
                  if AnyFails(lines) then EndsMoving(lines)
                  else exit.Some? && !passes && AnyFails(more) && EndsMoving(more))
            && (t.stage == Failed <==>
                  if AnyFails(lines) then !EndsMoving(lines)
                  else exit.Some? && !passes && !(AnyFails(more) && EndsMoving(more)))
            && (t.stage == Summary <==> !AnyFails(lines) && passes)
            && (t.be.active <==> !AnyFails(lines) && exit.None?)
  {
    HeardBatch(s, lines);
    var t := HearAll(s, lines);
    if t.be.active && exit.Some? {
      FlushHeard(t, more, last);
      TailMoves(more, last);
      EndLeads(Flushed(t, more, last), AnyFails(Tail(more, last)), EndsMoving(Tail(more, last)), exit.value, |t.led.heard|);
    }
  }

  lemma EndLeads(t: State, failed: bool, moving: bool, exit: Exit, at: nat)
    requires t.be.failed == failed && (t.be.active == !failed == t.be.timer) && !t.quit
    requires if failed then t.stage == (if moving then Verifying else Failed) else t.stage == Installing || t.stage == Verifying
    ensures var u, passes := Ended(t, exit, at), exit == Exited(0) && t.led.progress >= 100;
            && (u.stage == Summary <==> passes) && !u.be.active
            && (Trapped(u) <==> !passes && failed && moving) && (u.stage == Failed <==> !passes && !(failed && moving))
  {
  }

  /** A tick that reaches Summary forgives a failure exactly if its line was read after the backend's
      end had been reported. */
  lemma SummaryForgives(s: State, lines: seq<Message>, exit: Option<Exit>, more: seq<Message>, last: Option<Message>)
    requires Inv(s) && s.be.active && !s.quit && Ticked(s, lines, exit, more, last).stage == Summary
    ensures !AnyFails(lines)
    ensures Ticked(s, lines, exit, more, last).be.failed <==> AnyFails(more) || (last.Some? && Fails(last.value))
  {
    TrapExactly(s, lines, exit, more, last);
    HeardBatch(s, lines);
    FlushHeard(HearAll(s, lines), more, last);
    TailMoves(more, last);
  }

  // -------------------------------------------------------------- invariants

  /** After a batch of lines from a running backend, and after its end. */
  lemma HeardKeeps(s: State, lines: seq<Message>, t: State)
    requires Inv(s) && s.be.active && HeardFrom(s, AnyFails(lines), EndsMoving(lines), t)
    requires Evident(t.led) && t.led.heard == s.led.heard + lines
    ensures Inv(t) && t.stage != Complete && t.stage != Summary
  {
    AnyFailsConcat(s.led.heard, lines);
  }

  lemma EndKeeps(s: State, tail: seq<Message>, t: State, exit: Exit)
    requires Inv(s) && s.be.active && HeardFrom(s, AnyFails(tail), EndsMoving(tail), t)
    requires Evident(t.led) && t.led.heard == s.led.heard + tail
    ensures var u := Ended(t, exit, |s.led.heard|);
            && Inv(u) && u.stage != Complete
            && (u.stage == Summary <==> exit == Exited(0) && t.led.progress >= 100)
  {
    assert t.led.heard[..|s.led.heard|] == s.led.heard && t.led.heard[|s.led.heard|..] == tail;
  }

  lemma TickKeeps(s: State, lines: seq<Message>, exit: Option<Exit>, more: seq<Message>, last: Option<Message>)
    requires Inv(s)
    ensures var t := Ticked(s, lines, exit, more, last);
            && Inv(t) && (t.stage == Complete ==> s.stage == Complete)
            && (t.stage == Summary && s.stage != Summary ==> exit == Some(Exited(0)))
  {
    if s.be.timer {
      HeardBatch(s, lines);
      var t := HearAll(s, lines);
      HeardKeeps(s, lines, t);
      if t.be.active && exit.Some? {
        FlushHeard(t, more, last);
        EndKeeps(t, Tail(more, last), Flushed(t, more, last), exit.value);
      }
    }
  }

  lemma NonePassedEvident(run: nat)
    ensures Evident(Ledger(0, false, NonePassed(), run, [], None, 0))
  {
  }

  /** Neither Summary nor Complete is entered by a step from s to t. */
  predicate NoGate(s: State, t: State) { t.stage == s.stage || (t.stage != Summary && t.stage != Complete) }

  lemma StartKeeps(s: State, env: Env, repair: bool)
    requires Inv(s) && !s.be.active && (s.stage == Confirm || s.stage == Failed)
    ensures Inv(StartedBackend(s, env, repair)) && NoGate(s, StartedBackend(s, env, repair))
  {
    NonePassedEvident(s.led.run + 1);
  }

  lemma ContinueKeeps(s: State, env: Env)
    requires Inv(s)
    ensures Inv(ActivatedContinue(s, env)) && NoGate(s, ActivatedContinue(s, env))
  {
  }

  lemma BackKeeps(s: State)
    requires Inv(s)
    ensures Inv(ActivatedBack(s)) && NoGate(s, ActivatedBack(s))
  {
  }

  lemma AuxKeeps(s: State, env: Env, was: ErrorButton, at: Spot)
    requires Inv(s)
    ensures Inv(ReleasedAux(s, env, was, at)) && NoGate(s, ReleasedAux(s, env, was, at))
  {
    if s.stage == Confirm {
      StartKeeps(s, env, false);
    } else if s.stage == Failed {
      var u := s.(be := Backend(-1, false, false, false, false));
      StartKeeps(u, env, false);
      StartKeeps(u, env, true);
    }
  }

  lemma CompleteKeeps(s: State)
    requires Inv(s) && Ready(s)
    ensures Inv(ActivatedComplete(s)) && ActivatedComplete(s).stage == Complete
  {
  }

  lemma ReadyUnpressed(s: State, p: Press)
    ensures Ready(s.(press := p)) == Ready(s) && Inv(s.(press := p)) == Inv(s)
  {
  }

  lemma UpKeeps(s: State, env: Env, at: Spot)
    requires Inv(s)
    ensures var t := ReleasedUp(s, env, at); Inv(t) && (NoGate(s, t) || (Ready(s) && t.stage == Complete))
  {
    var t := s.(press := Released);
    ReadyUnpressed(s, Released);
    ContinueKeeps(t, env);
    BackKeeps(t);
    AuxKeeps(t, env, s.press.error, at);
    if Ready(t) { CompleteKeeps(t); }
  }

  lemma OtherKeeps(s: State, env: Env, at: Spot)
    requires Inv(s)
    ensures Inv(PressedOther(s, env, at)) && NoGate(s, PressedOther(s, env, at))
  {
  }

  lemma DownKeeps(s: State, env: Env, at: Spot)
    requires Inv(s)
    ensures Inv(PressedDown(s, env, at)) && NoGate(s, PressedDown(s, env, at))
  {
    OtherKeeps(s.(press := Press(false, false, false, false, s.press.error)), env, at);
  }

  lemma ClickKeeps(s: State, env: Env, at: Spot)
    requires Inv(s)
    ensures var t := Clicked(s, env, at); Inv(t) && (NoGate(s, t) || (Ready(s) && t.stage == Complete))
  {
    ContinueKeeps(s, env);
    BackKeeps(s);
  }

  lemma KeyKeeps(s: State, env: Env, key: Key)
    requires Inv(s)
    ensures Inv(Keyed(s, env, key)) && NoGate(s, Keyed(s, env, key))
  {
    ContinueKeeps(s, env);
  }

  /** One event: everything the screens promise is kept; Complete is entered only from a Summary
      that is ready, and Summary only by a backend that ended with status 0. */
  lemma StepKeeps(s: State, env: Env, e: Event)
    requires Inv(s)
    ensures var t := Step(s, env, e);
            && Inv(t)
            && (t.stage == Complete && s.stage != Complete ==> Ready(s))
            && (t.stage == Summary && s.stage != Summary ==> e.Tick? && e.exit == Some(Exited(0)))
  {
    match e
    case Tick(lines, exit, more, last) => TickKeeps(s, lines, exit, more, last);
    case KeyPress(key) => KeyKeeps(s, env, key);
    case Down(at) => DownKeeps(s, env, at);
    case Up(at) => UpKeeps(s, env, at);
    case Click(at) => ClickKeeps(s, env, at);
  }

  function Run(s: State, events: seq<(Env, Event)>): State {
    if events == [] then s
    else
      var last := events[|events| - 1];
      Step(Run(s, events[..|events| - 1]), last.0, last.1)
  }

  lemma {:induction false} RunKeeps(s: State, events: seq<(Env, Event)>)
    requires Inv(s)
    ensures Inv(Run(s, events))
    decreases |events|
  {
    if events != [] {
      RunKeeps(s, events[..|events| - 1]);
      StepKeeps(Run(s, events[..|events| - 1]), events[|events| - 1].0, events[|events| - 1].1);
    }
  }

  /** Every run from the start keeps the invariant; in Complete, hence at Restart, all ten checks are
      the last word of the latest run's own lines and that run ended with status 0. */
  lemma AnyRun(disks: seq<Disk>, events: seq<(Env, Event)>)
    ensures var s := Run(Initial(disks), events);
            && Inv(s)
            && (s.stage == Complete || s.restarted ==>
                  && s.led.exit == Some(Exited(0)) && s.led.progress >= 100 && !s.be.active
                  && AllHeard(s.led.heard))
  {
    NonePassedEvident(0);
    RunKeeps(Initial(disks), events);
    AllPassedHeard(Run(Initial(disks), events).led);
  }

  predicate AllHeard(heard: seq<Message>) { forall i :: 0 <= i < CHECKS ==> Passed(heard, i) }

  lemma AllPassedHeard(l: Ledger)
    requires Evident(l)
    ensures l.checks == AllPassed() <==> AllHeard(l.heard)
  {
    var all := AllPassed();
    assert forall i :: 0 <= i < CHECKS ==> all[i];
    if l.checks == all {
      forall i | 0 <= i < CHECKS ensures Passed(l.heard, i) { assert l.checks[i] == all[i]; }
    }
  }

  /** In Summary the Complete button works exactly when the last word on all ten checks is a pass. */
  lemma SummaryReady(s: State)
    requires Inv(s) && s.stage == Summary
    ensures Ready(s) <==> AllHeard(s.led.heard)
  {
    AllPassedHeard(s.led);
  }

  /** Summary, and then Complete, does not mean that no failure line was seen: a failure after a
      verification summary is followed by exit status 0 at full progress. */
  lemma FailureThenComplete(s: State)
    requires Inv(s) && s.be.active && !s.quit && s.led.progress <= 100
    ensures var lines := [Progress(9, 100, false), VerificationSummary, Failure];
            var t := Ticked(s, [], Some(Exited(0)), lines, None);
            t.led.heard == s.led.heard + lines && t.be.failed && Ready(t) && ActivatedComplete(t).stage == Complete
  {
    var lines := [Progress(9, 100, false), VerificationSummary, Failure];
    HearThree(s, lines[0], lines[1], lines[2]);
    assert HearAll(s, []) == s;
    assert s.led.heard + [lines[0]] + [lines[1]] + [lines[2]] == s.led.heard + lines;
  }

  lemma HearThree(s: State, a: Message, b: Message, c: Message)
    ensures HearAll(s, [a, b, c]) == Hear(Hear(Hear(s, a), b), c)
  {
    assert [a, b, c][..2] == [a, b] && [a, b][..1] == [a] && [a][..0] == [];
    assert HearAll(s, [a]) == Hear(HearAll(s, []), a);
    assert HearAll(s, [a, b]) == Hear(HearAll(s, [a]), b);
  }

  /** Over every run: in Summary and Complete no failure line was read before the end of the latest
      backend was reported, and one was read at all exactly if the run is marked as failed. */
  lemma ForgivenExactly(disks: seq<Disk>, events: seq<(Env, Event)>)
    ensures var s := Run(Initial(disks), events);
            s.stage == Summary || s.stage == Complete ==>
              && s.led.ended <= |s.led.heard| && !AnyFails(s.led.heard[..s.led.ended])
              && (AnyFails(s.led.heard) <==> s.be.failed)
              && (AnyFails(s.led.heard) <==> AnyFails(s.led.heard[s.led.ended..]))
  {
    AnyRun(disks, events);
    var s := Run(Initial(disks), events);
    if s.stage == Summary || s.stage == Complete {
      var l := s.led;
      assert l.heard == l.heard[..l.ended] + l.heard[l.ended..];
      AnyFailsConcat(l.heard[..l.ended], l.heard[l.ended..]);
    }
  }

  // ------------------------------------------------------------ erase consent

  /** The user ticked the box for the disk that is now the target. */
  predicate HasConsent(ch: Choice) {
    ch.confirmed && Targets(ch) && ch.agreed == Some(ch.disks[ch.target])
  }

  function PreselectedDisk(disks: seq<Disk>): Option<Disk> {
    if Preselected(disks) >= 0 then Some(disks[Preselected(disks)]) else None
  }

  /** Whatever starts a backend, Repair included: it has consent for its disk exactly if the box is
      ticked and the disks were not probed since, or the probe preselected that same disk. From the
      confirmation screen it always has. */
  lemma ConsentExactly(s: State, env: Env, e: Event)
    requires Inv(s) && Step(s, env, e).led.run > s.led.run
    ensures var t := Step(s, env, e);
            && t.led.run == s.led.run + 1 && t.ch == s.ch && (s.stage == Confirm || s.stage == Failed)
            && (HasConsent(t.ch) <==> s.ch.confirmed && (!s.ch.reprobed || s.ch.agreed == PreselectedDisk(s.ch.disks)))
            && (s.stage == Confirm ==> HasConsent(t.ch))
  {
    match e
    case Tick(lines, exit, more, last) => TickRun(s, lines, exit, more, last);
    case KeyPress(key) =>
    case Down(at) =>
    case Up(at) => UpRun(s, env, at);
    case Click(at) =>
  }

  lemma TickRun(s: State, lines: seq<Message>, exit: Option<Exit>, more: seq<Message>, last: Option<Message>)
    requires Inv(s)
    ensures Ticked(s, lines, exit, more, last).led.run == s.led.run
  {
    if s.be.timer {
      HeardBatch(s, lines);
      var t := HearAll(s, lines);
      if t.be.active { FlushHeard(t, more, last); }
    }
  }

  lemma UpRun(s: State, env: Env, at: Spot)
    requires Inv(s) && ReleasedUp(s, env, at).led.run > s.led.run
    ensures var t := ReleasedUp(s, env, at);
            && t.led.run == s.led.run + 1 && t.ch == s.ch && Targets(s.ch)
            && (s.stage == Failed || (s.stage == Confirm && s.ch.confirmed))
  {
    NoRun(s.(press := Released), env);
    AuxRun(s.(press := Released), env, s.press.error, at);
  }

  lemma NoRun(s: State, env: Env)
    ensures ActivatedContinue(s, env).led == s.led && ActivatedBack(s).led == s.led && ActivatedComplete(s).led == s.led
  {
  }

  lemma AuxRun(s: State, env: Env, was: ErrorButton, at: Spot)
    ensures var t := ReleasedAux(s, env, was, at);
            t.led.run > s.led.run ==>
              && t.led.run == s.led.run + 1 && t.ch == s.ch && Targets(s.ch)
              && (s.stage == Failed || (s.stage == Confirm && s.ch.confirmed))
  {
  }

  /** An installing run starts only with the box ticked, and on the disk it was ticked for unless the
      disks were probed again in between. */
  lemma ErasesAgreedDisk(s: State, env: Env)
    requires Inv(s) && StartedBackend(s, env, false).led.run > s.led.run
    ensures s.ch.confirmed && Targets(s.ch) && !s.ch.disks[s.ch.target].live && env.present(s.ch.disks[s.ch.target])
    ensures !s.ch.reprobed ==> s.ch.agreed == Some(s.ch.disks[s.ch.target])
  {
  }

  /** Otherwise it need not be: after consent for a, if a does not revalidate and the probe finds b,
      Retry starts the installation on b. */
  lemma RetryErasesAnother(s: State, a: Disk, b: Disk, pid: int)
    requires Inv(s) && s.stage == Confirm && !s.ch.confirmed && !s.quit && s.ch.disks[s.ch.target] == a
    requires a != b && !b.live && pid > 0
    ensures var gone := Env(d => d == b, [b], NoBackend);
            var back := Env(d => d == b, [b], Started(pid));
            var s2 := Step(Step(s, gone, Down(EraseBox)), gone, Up(EraseBox));
            var t := Step(Step(s2, back, Down(RetrySpot)), back, Up(RetrySpot));
            t.led.run == s.led.run + 1 && t.ch.agreed == Some(a) && t.ch.disks[t.ch.target] == b
  {
    var gone := Env(d => d == b, [b], NoBackend);
    var back := Env(d => d == b, [b], Started(pid));
    var s1 := Step(s, gone, Down(EraseBox));
    assert s1.press.aux && !s1.press.go && !s1.press.back && s1.ch == Toggled(s.ch) && s1.stage == Confirm;
    var s2 := Step(s1, gone, Up(EraseBox));
    assert s2.ch == Probed(s1.ch, [b]) && s2.stage == Failed && s2.press == Released;
    assert Targets(s2.ch);
    var s3 := Step(s2, back, Down(RetrySpot));
    assert s3.press.aux && s3.press.error == Retry && s3.ch == s2.ch && s3.stage == Failed;
  }

  /** Repair asks for no consent: when the chosen disk is gone, Continue leads to the failure screen,
      and Repair there starts a backend on the disk the probe preselected. */
  lemma RepairStartsUnconfirmed(s: State, b: Disk, pid: int)
    requires Inv(s) && s.stage == Select && !s.quit && Targets(s.ch) && s.ch.disks[s.ch.target] != b
    requires !b.live && pid > 0
    ensures var gone := Env(d => d == b, [b], NoBackend);
            var back := Env(d => d == b, [b], Started(pid));
            var s1 := Step(s, gone, Click(ContinueSpot));
            var t := Step(Step(s1, back, Down(RepairSpot)), back, Up(RepairSpot));
            t.led.run == s.led.run + 1 && !t.ch.confirmed && t.ch.disks[t.ch.target] == b
  {
    var gone := Env(d => d == b, [b], NoBackend);
    var back := Env(d => d == b, [b], Started(pid));
    var s1 := Step(s, gone, Click(ContinueSpot));
    assert s1.ch == Probed(s.ch, [b]) && s1.stage == Failed && Targets(s1.ch) && !s1.quit;
    var s2 := Step(s1, back, Down(RepairSpot));
    assert s2.press.aux && s2.press.error == Repair && s2.ch == s1.ch && s2.stage == Failed;
  }

  // ---------------------------------------------------------- which disk it is

  /** What probe_disks preselects: the first fixed disk that is not live, without one the first that is
      not live. */
  lemma PreselectedIsFirst(disks: seq<Disk>)
    ensures var r := Preselected(disks);
            && (r == -1 <==> forall i :: 0 <= i < |disks| ==> disks[i].live)
            && (r >= 0 ==>
                  && !disks[r].live
                  && if exists i :: 0 <= i < |disks| && !disks[i].live && !disks[i].removable
                     then !disks[r].removable && forall i :: 0 <= i < r ==> disks[i].live || disks[i].removable
                     else forall i :: 0 <= i < r ==> disks[i].live)
  {
    FirstFixedIs(disks, 0);
    FirstUsableIs(disks, 0);
  }

  lemma FirstFixedIs(disks: seq<Disk>, i: nat)
    requires i <= |disks|
    ensures var r := FirstFixed(disks, i);
            forall j :: i <= j < (if r >= 0 then r else |disks|) ==> disks[j].live || disks[j].removable
    decreases |disks| - i
  {
  }

  lemma FirstUsableIs(disks: seq<Disk>, i: nat)
    requires i <= |disks|
    ensures var r := FirstUsable(disks, i); forall j :: i <= j < (if r >= 0 then r else |disks|) ==> disks[j].live
    decreases |disks| - i
  {
  }

  /** A click on row i in the list: a live disk is protected, one that is there becomes the target, and
      one that is gone leads to the failure screen and a new probe. */
  lemma RowSelects(s: State, env: Env, i: nat)
    requires s.stage == Select && !s.quit && i < |s.ch.disks|
    ensures var t := Step(s, env, Down(Row(i)));
            if s.ch.disks[i].live then t.stage == Select && t.ch == s.ch
            else if env.present(s.ch.disks[i]) then
              t.stage == Select && t.ch.disks == s.ch.disks && t.ch.target == i && !t.ch.confirmed
            else t.stage == Failed && t.ch.disks == env.disks && t.ch.target == Preselected(env.disks)
  {
  }

  /** The event is a click on a row that can be chosen. */
  predicate Picks(s: State, env: Env, e: Event) {
    && !s.quit && s.stage == Select && e.Down? && e.at.Row? && e.at.index < |s.ch.disks|
    && !s.ch.disks[e.at.index].live && env.present(s.ch.disks[e.at.index])
  }

  /** The disk of the last row that was chosen since the list was entered from the welcome screen, and
      before that the one preselected among those found then. */
  function LastChosen(disks: seq<Disk>, events: seq<(Env, Event)>): Option<Disk> {
    if events == [] then None
    else
      var front, last := events[..|events| - 1], events[|events| - 1];
      var s, t := Run(Initial(disks), front), Run(Initial(disks), events);
      if s.stage == Welcome && t.stage == Select then PreselectedDisk(last.0.disks)
      else if Picks(s, last.0, last.1) then Some(s.ch.disks[last.1.at.index])
      else LastChosen(disks, front)
  }

  /** How one event moves the target of the two selection screens. */
  lemma StepTarget(s: State, env: Env, e: Event)
    requires Inv(s)
    ensures var t := Step(s, env, e);
            t.stage == Select || t.stage == Confirm ==>
              if s.stage == Welcome then t.stage == Select && t.ch.disks == env.disks && t.ch.target == Preselected(env.disks)
              else
                && (s.stage == Select || s.stage == Confirm) && t.ch.disks == s.ch.disks
                && t.ch.target == if Picks(s, env, e) then e.at.index else s.ch.target
  {
    match e
    case Tick(lines, exit, more, last) => TickTarget(s, lines, exit, more, last);
    case KeyPress(key) =>
    case Down(at) =>
    case Up(at) => UpTarget(s, env, at);
    case Click(at) =>
  }

  lemma TickTarget(s: State, lines: seq<Message>, exit: Option<Exit>, more: seq<Message>, last: Option<Message>)
    requires Inv(s)
    ensures var t := Ticked(s, lines, exit, more, last);
            t.stage == Select || t.stage == Confirm ==> t == s
  {
    if s.be.timer { TrapStages(s, lines, exit, more, last); }
  }

  lemma TrapStages(s: State, lines: seq<Message>, exit: Option<Exit>, more: seq<Message>, last: Option<Message>)
    requires Inv(s) && s.be.timer
    ensures var t := Ticked(s, lines, exit, more, last); t.stage != Select && t.stage != Confirm
  {
    HeardBatch(s, lines);
    var t := HearAll(s, lines);
    if t.be.active { FlushHeard(t, more, last); }
    hide HearAll, Flushed, Evident, NotedAll, Hear, Forgiving, Gated, Consented;
  }

  /** What a button does to the target of the two selection screens: only Continue on the welcome screen
      sets one. */
  predicate Retargets(s: State, env: Env, t: State) {
    t.stage == Select || t.stage == Confirm ==>
      if s.stage == Welcome && t != s then t.stage == Select && t.ch.disks == env.disks && t.ch.target == Preselected(env.disks)
      else (s.stage == Select || s.stage == Confirm) && t.ch.disks == s.ch.disks && t.ch.target == s.ch.target
  }

  lemma AuxTarget(s: State, env: Env, was: ErrorButton, at: Spot)
    ensures Retargets(s, env, ReleasedAux(s, env, was, at))
  {
  }

  lemma ContinueTarget(s: State, env: Env)
    ensures Retargets(s, env, ActivatedContinue(s, env)) && Retargets(s, env, ActivatedBack(s))
    ensures Retargets(s, env, ActivatedComplete(s))
  {
  }

  lemma UpTarget(s: State, env: Env, at: Spot)
    ensures Retargets(s, env, ReleasedUp(s, env, at))
  {
    var t := s.(press := Released);
    ContinueTarget(t, env);
    AuxTarget(t, env, s.press.error, at);
    hide ActivatedContinue, ActivatedBack, ActivatedComplete, ReleasedAux, Ready;
  }

  /** On both selection screens the target is the disk chosen last. */
  lemma {:induction false} TargetIsLastChosen(disks: seq<Disk>, events: seq<(Env, Event)>)
    ensures var s := Run(Initial(disks), events);
            s.stage == Select || s.stage == Confirm ==>
              match LastChosen(disks, events)
              case None => s.ch.target == -1
              case Some(d) => Targets(s.ch) && s.ch.disks[s.ch.target] == d
    decreases |events|
  {
    if events != [] {
      var front, last := events[..|events| - 1], events[|events| - 1];
      TargetIsLastChosen(disks, front);
      AnyRun(disks, front);
      StepTarget(Run(Initial(disks), front), last.0, last.1);
      hide Step, Inv;
    }
  }

  /** Over every run: a run of the backend that is started from the confirmation screen erases the disk
      chosen last, which is there and not the live medium. */
  lemma ErasesLastChosen(disks: seq<Disk>, events: seq<(Env, Event)>, env: Env, e: Event)
    ensures var s := Run(Initial(disks), events);
            var t := Step(s, env, e);
            s.stage == Confirm && t.led.run > s.led.run ==>
              && t.ch == s.ch && Targets(t.ch) && LastChosen(disks, events) == Some(t.ch.disks[t.ch.target])
              && !t.ch.disks[t.ch.target].live && env.present(t.ch.disks[t.ch.target])
  {
    AnyRun(disks, events);
    var s := Run(Initial(disks), events);
    TargetIsLastChosen(disks, events);
    if s.stage == Confirm && Step(s, env, e).led.run > s.led.run {
      ConsentExactly(s, env, e);
      RunPresent(s, env, e);
    }
  }

  lemma RunPresent(s: State, env: Env, e: Event)
    requires Inv(s) && s.stage == Confirm && Step(s, env, e).led.run > s.led.run
    ensures Targets(s.ch) && !s.ch.disks[s.ch.target].live && env.present(s.ch.disks[s.ch.target])
  {
    match e
    case Tick(lines, exit, more, last) => TickRun(s, lines, exit, more, last);
    case KeyPress(key) =>
    case Down(at) =>
    case Up(at) =>
    case Click(at) =>
  }

  /** Consent changes on the confirmation screen exactly by a press of the box or the space key. */
  lemma TogglesExactly(s: State, env: Env, e: Event)
    requires Inv(s) && s.stage == Confirm && Step(s, env, e).stage == Confirm
    ensures Step(s, env, e).ch.confirmed != s.ch.confirmed <==> !s.quit && (e == Down(EraseBox) || e == KeyPress(Space))
  {
    if e.Tick? { TickTarget(s, e.lines, e.exit, e.more, e.last); }
  }

  /** Continue was pressed and released, clicked, or entered by a key. */
  predicate GoesOn(s: State, e: Event) {
    e == Click(ContinueSpot) || (e == Up(ContinueSpot) && s.press.go) || e == KeyPress(Return) || e == KeyPress(Space)
  }

  predicate GoesBack(s: State, e: Event) { e == Click(BackSpot) || (e == Up(BackSpot) && s.press.back) }

  /** How the selection screens follow one another. */
  lemma NavigatesExactly(s: State, env: Env, e: Event)
    requires Inv(s) && !s.quit
    ensures var t := Step(s, env, e);
            && (s.stage == Welcome ==> (t.stage == Select <==> GoesOn(s, e)))
            && (s.stage == Select ==>
                  && (t.stage == Confirm <==>
                        GoesOn(s, e) && Targets(s.ch) && !s.ch.disks[s.ch.target].live && env.present(s.ch.disks[s.ch.target]))
                  && (t.stage == Welcome <==> GoesBack(s, e)))
            && (s.stage == Confirm ==> (t.stage == Select <==> GoesBack(s, e)))
  {
    if e.Tick? { TickTarget(s, e.lines, e.exit, e.more, e.last); }
  }

  /** The percentage a line reports, if it counts. */
  function Amount(m: Message): Option<int> {
    match m
    case Progress(_, percent, _) => if percent <= 100 then Some(percent) else None
    case Verify(Some(r)) => Some(r.percent)
    case _ => None
  }

  /** The progress shown is the greatest amount reported since the start. */
  lemma {:induction false} ProgressIsGreatest(l: Ledger, lines: seq<Message>)
    ensures var p := NotedAll(l, lines).progress;
            && l.progress <= p && (forall i :: 0 <= i < |lines| && Amount(lines[i]).Some? ==> Amount(lines[i]).value <= p)
            && (p == l.progress || exists i :: 0 <= i < |lines| && Amount(lines[i]) == Some(p))
  {
    if lines != [] {
      var n := |lines| - 1;
      ProgressIsGreatest(l, lines[..n]);
      var before, p := NotedAll(l, lines[..n]).progress, NotedAll(l, lines).progress;
      assert forall i :: 0 <= i < n ==> lines[..n][i] == lines[i];
      if p != before { assert Amount(lines[n]) == Some(p); }
    }
  }

  /** The program quits exactly by the quit key outside a running installation, or by the restart
      button of a completed one. */
  lemma QuitsExactly(s: State, env: Env, e: Event)
    requires Inv(s) && !s.quit
    ensures Step(s, env, e).quit <==>
      || (e == KeyPress(Quit) && s.stage != Installing && s.stage != Verifying)
      || (e == Up(RestartSpot) && s.press.aux && s.stage == Complete)
  {
    if e.Tick? && s.be.timer {
      HeardBatch(s, e.lines);
      var t := HearAll(s, e.lines);
      if t.be.active { FlushHeard(t, e.more, e.last); }
    }
  }

  /** Releasing the mouse after ticking the erase box, wherever that is, already starts the
      installation: there is no separate button. */
  lemma TickStartsErase(s: State, env: Env, at: Spot)
    requires Inv(s) && s.stage == Confirm && !s.ch.confirmed && !s.quit
    requires env.present(s.ch.disks[s.ch.target]) && env.launch.Started? && env.launch.pid > 0
    ensures var t := Step(Step(s, env, Down(EraseBox)), env, Up(at));
            t.led.run == s.led.run + 1 && t.stage == Installing && t.ch.confirmed
  {
    var s1 := Step(s, env, Down(EraseBox));
    assert s1.press.aux && !s1.press.go && !s1.press.back && s1.ch == Toggled(s.ch) && s1.stage == Confirm;
  }

  // ----------------------------------------------------------------- in place

  /** The program's global variables and the handlers that change them. */
  class Installer {
    var stage: Stage
    var pid: int
    var fd: bool
    var timer: bool
    var backendActive: bool
    var backendFailed: bool
    var progress: int
    var verified: bool
    const checks: array<bool>
    var disks: seq<Disk>
    var target: int
    var confirmedErase: bool
    var press: Press
    var quit: bool
    var restarted: bool

    // history
    ghost var run: nat
    ghost var heard: seq<Message>
    ghost var exit: Option<Exit>
    ghost var ended: nat
    ghost var agreed: Option<Disk>
    ghost var reprobed: bool

    ghost function View(): State
      reads this, checks
    {
      State(stage, Backend(pid, fd, timer, backendActive, backendFailed),
            Ledger(progress, verified, checks[..], run, heard, exit, ended),
            Choice(disks, target, confirmedErase, agreed, reprobed), press, quit, restarted)
    }

    constructor (found: seq<Disk>)
      ensures View() == Initial(found) && Inv(View()) && fresh(checks)
    {
      stage, pid, fd, timer, backendActive, backendFailed := Welcome, -1, false, false, false, false;
      progress, verified, checks := 0, false, new bool[CHECKS](_ => false);
      disks, target, confirmedErase := found, Preselected(found), false;
      press, quit, restarted := Released, false, false;
      run, heard, exit, ended, agreed, reprobed := 0, [], None, 0, None, false;
      new;
      assert checks[..] == NonePassed();
      NonePassedEvident(0);
    }

    method SetFailure()
      modifies this
      ensures View() == Fail(old(View()))
    {
      Flagged();
      Disarm();
      if pid > 0 { pid := -1; }
    }

    method Flagged()
      modifies this`backendFailed, this`backendActive, this`stage
      ensures var v := old(View()); View() == v.(stage := Failed, be := v.be.(active := false, failed := true))
    {
      backendFailed := true;
      backendActive := false;
      stage := Failed;
    }

    method Disarm()
      modifies this`timer, this`fd
      ensures var v := old(View()); View() == v.(be := v.be.(timer := false, fd := false))
    {
      timer := false;
      fd := false;
    }

    method ApplyProgressEvent(step: int, percent: int, verifying: bool)
      modifies this`stage, this`progress
      ensures View() == Advance(old(View()), step, percent, verifying)
    {
      if percent < progress || percent > 100 { return; }
      progress := percent;
      if verifying {
        if stage == Installing { stage := Verifying; }
      } else if 1 <= step <= 7 {
      } else if percent >= 80 && percent < 100 {
        if stage == Installing { stage := Verifying; }
      }
    }

    method MarkSummaryCheck(check: Option<nat>, pass: bool)
      modifies checks
      ensures checks[..] == Marked(old(checks[..]), check, pass)
    {
      for i := 0 to checks.Length
        invariant checks[..] == old(checks[..]) && forall k :: 0 <= k < i ==> check != Some(k)
      {
        if check == Some(i) {
          checks[i] := pass;
          assert checks[..] == old(checks[..])[i := pass];
          break;
        }
      }
    }

    method PassAll()
      requires checks.Length == CHECKS
      modifies checks
      ensures checks[..] == AllPassed()
    {
      for i := 0 to checks.Length
        invariant forall k :: 0 <= k < i ==> checks[k]
      {
        checks[i] := true;
      }
    }

    method ClearAll()
      requires checks.Length == CHECKS
      modifies checks
      ensures checks[..] == NonePassed()
    {
      for i := 0 to checks.Length
        invariant forall k :: 0 <= k < i ==> !checks[k]
      {
        checks[i] := false;
      }
    }

    method ParseBackendLine(m: Message)
      requires checks.Length == CHECKS
      modifies this, checks
      ensures View() == Hear(old(View()), m)
    {
      heard := heard + [m];
      match m
      case Failure => SetFailure();
      case StateVerifying => stage := Verifying;
      case StateCompleted => verified := true;
      case Verify(None) => stage := Verifying;
      case Verify(Some(r)) => Verified(r);
      case VerificationSummary =>
        PassAll();
        verified := true;
      case Progress(step, percent, verifying) => ApplyProgressEvent(step, percent, verifying);
      case Other =>
    }

    method Verified(r: Report)
      modifies this, checks
      ensures var v := old(View());
              var l := v.led.(progress := if r.percent > v.led.progress then r.percent else v.led.progress,
                              checks := Marked(v.led.checks, r.check, r.pass));
              View() == (if r.pass then v.(stage := Verifying) else Fail(v)).(led := l)
    {
      stage := Verifying;
      ApplyReport(r);
      if !r.pass { SetFailure(); }
    }

    method ApplyReport(r: Report)
      modifies this`progress, checks
      ensures progress == if r.percent > old(progress) then r.percent else old(progress)
      ensures checks[..] == Marked(old(checks[..]), r.check, r.pass)
    {
      if r.percent > progress { progress := r.percent; }
      MarkSummaryCheck(r.check, r.pass);
    }

    method DrainBackendOutput(lines: seq<Message>)
      requires checks.Length == CHECKS
      modifies this, checks
      ensures View() == Drained(old(View()), lines)
    {
      if !fd { return; }
      for i := 0 to |lines|
        invariant View() == HearAll(old(View()), lines[..i])
      {
        assert lines[..i + 1][..i] == lines[..i];
        ParseBackendLine(lines[i]);
      }
      assert lines[..|lines|] == lines;
    }

    /** waitpid has reported the end of the backend, or has not. */
    method FinishBackendIfNeeded(reported: Option<Exit>, more: seq<Message>, last: Option<Message>)
      requires checks.Length == CHECKS
      modifies this, checks
      ensures View() == Finished(old(View()), reported, more, last)
    {
      if pid <= 0 || reported.None? { return; }
      ghost var at := |heard|;
      DrainBackendOutput(more);
      if fd && last.Some? { ParseBackendLine(last.value); }
      EndBackend(reported.value, at);
    }

    method EndBackend(status: Exit, ghost at: nat)
      modifies this
      ensures View() == Ended(old(View()), status, at)
    {
      BackendGone(status, at);
      if status == Exited(0) && progress >= 100 {
        Succeed();
      } else {
        EndFailed();
      }
    }

    method BackendGone(status: Exit, ghost at: nat)
      modifies this`fd, this`pid, this`backendActive, this`exit, this`ended
      ensures View() == old(View()).(be := old(View().be).(pid := -1, active := false, fd := false),
                                     led := old(View().led).(exit := Some(status), ended := at))
    {
      Dropped();
      exit, ended := Some(status), at;
    }

    method Dropped()
      modifies this`fd, this`pid, this`backendActive
      ensures var v := old(View()); View() == v.(be := v.be.(pid := -1, active := false, fd := false))
    {
      fd := false;
      pid := -1;
      backendActive := false;
    }

    method Succeed()
      modifies this`verified, this`progress, this`stage, this`timer
      ensures View() == old(View()).(stage := Summary, be := old(View().be).(timer := false),
                                     led := old(View().led).(verified := true, progress := 100))
    {
      verified := true;
      progress := 100;
      stage := Summary;
      timer := false;
    }

    method EndFailed()
      modifies this
      ensures View() == if old(backendFailed) then old(View()) else Fail(old(View()))
    {
      if !backendFailed { SetFailure(); }
    }

    method InstallGuiTick(lines: seq<Message>, reported: Option<Exit>, more: seq<Message>, last: Option<Message>)
      requires checks.Length == CHECKS && timer
      modifies this, checks
      ensures View() == Ticked(old(View()), lines, reported, more, last)
    {
      if stage != Installing && stage != Verifying { return; }
      DrainBackendOutput(lines);
      FinishBackendIfNeeded(reported, more, last);
    }

    method StopBackend()
      modifies this`timer, this`fd, this`pid, this`backendActive
      ensures View() == old(View()).(be := Backend(-1, false, false, false, old(backendFailed)))
    {
      timer := false;
      fd := false;
      pid := -1;
      backendActive := false;
    }

    method ProbeDisks(found: seq<Disk>)
      modifies this`disks, this`target, this`reprobed
      ensures View() == old(View()).(ch := Probed(old(View().ch), found))
    {
      disks := found;
      target := -1;
      reprobed := true;
      var i := 0;
      while i < |disks| && target < 0
        invariant 0 <= i <= |disks| && disks == found && reprobed
        invariant if target < 0 then target == -1 && FirstFixed(found, 0) == FirstFixed(found, i) else target == FirstFixed(found, 0)
        decreases |disks| - i, if target < 0 then 1 else 0
      {
        if !disks[i].live && !disks[i].removable { target := i; } else { i := i + 1; }
      }
      if target < 0 {
        i := 0;
        while i < |disks| && target < 0
          invariant 0 <= i <= |disks| && disks == found && reprobed && FirstFixed(found, 0) == -1
          invariant if target < 0 then target == -1 && FirstUsable(found, 0) == FirstUsable(found, i) else target == FirstUsable(found, 0)
          decreases |disks| - i, if target < 0 then 1 else 0
        {
          if !disks[i].live { target := i; } else { i := i + 1; }
        }
      }
    }

    method StartBackend(env: Env, repair: bool)
      requires checks.Length == CHECKS && target < |disks|
      modifies this, checks
      ensures View() == StartedBackend(old(View()), env, repair)
    {
      if backendActive { return; }
      if target < 0 { return; }
      if !repair && !confirmedErase { return; }
      if !env.present(disks[target]) {
        SetFailure();
        ProbeDisks(env.disks);
        return;
      }
      if !env.launch.Started? || env.launch.pid <= 0 {
        SetFailure();
        return;
      }
      Launched(env.launch.pid);
    }

    method Launched(child: int)
      requires checks.Length == CHECKS
      modifies this, checks
      ensures View() == old(View()).(stage := Installing, be := Backend(child, true, true, true, false),
                                     led := Ledger(0, false, NonePassed(), old(run) + 1, [], None, 0))
    {
      pid := child;
      fd := true;
      backendActive := true;
      backendFailed := false;
      ClearEvidence();
      stage := Installing;
      timer := true;
    }

    method ClearEvidence()
      requires checks.Length == CHECKS
      modifies this`progress, this`verified, this`run, this`heard, this`exit, this`ended, checks
      ensures View() == old(View()).(led := Ledger(0, false, NonePassed(), old(run) + 1, [], None, 0))
    {
      progress := 0;
      verified := false;
      ClearAll();
      run, heard, exit, ended := run + 1, [], None, 0;
    }

    method ActivateComplete()
      requires checks.Length == CHECKS
      modifies this`stage, this`press
      ensures View() == ActivatedComplete(old(View()))
    {
      var ready := SummaryVerificationReady();
      if !ready { return; }
      stage := Complete;
      press := press.(complete := false);
    }

    method SummaryVerificationReady() returns (r: bool)
      requires checks.Length == CHECKS
      ensures r == Ready(View())
    {
      if stage != Summary || !verified || backendActive || pid > 0 || progress < 100 { return false; }
      for i := 0 to CHECKS
        invariant forall k :: 0 <= k < i ==> checks[k]
      {
        if !checks[i] {
          assert checks[..][i] != AllPassed()[i];
          return false;
        }
      }
      assert checks[..] == AllPassed();
      return true;
    }

    method ActivateContinue(env: Env)
      requires target < |disks|
      modifies this
      ensures View() == ActivatedContinue(old(View()), env)
    {
      if stage == Welcome {
        stage := Select;
        target := -1;
        confirmedErase := false;
        ProbeDisks(env.disks);
        return;
      }
      if stage == Select {
        if target < 0 || target >= |disks| {
          SetFailure();
          return;
        }
        if disks[target].live || !env.present(disks[target]) {
          SetFailure();
          ProbeDisks(env.disks);
          return;
        }
        stage := Confirm;
        confirmedErase := false;
      }
    }

    method ActivateBack()
      modifies this`stage, this`target, this`confirmedErase
      ensures View() == ActivatedBack(old(View()))
    {
      if stage == Confirm {
        stage := Select;
        confirmedErase := false;
      } else if stage == Select {
        stage := Welcome;
        target := -1;
        confirmedErase := false;
      }
    }

    method ToggleErase()
      modifies this`confirmedErase, this`agreed, this`reprobed
      ensures View() == old(View()).(ch := Toggled(old(View().ch)))
    {
      confirmedErase := !confirmedErase;
      if confirmedErase {
        reprobed := false;
        if 0 <= target < |disks| { agreed := Some(disks[target]); }
      }
    }

    method KeyInput(env: Env, key: Key)
      requires target < |disks|
      modifies this
      ensures View() == Keyed(old(View()), env, key)
    {
      if key == Quit && stage != Installing && stage != Verifying {
        quit := true;
        return;
      }
      if key == Return || key == Space {
        if stage == Confirm && key == Space {
          ToggleErase();
        } else {
          ActivateContinue(env);
        }
      }
    }

    method SelectRow(env: Env, i: nat)
      modifies this
      ensures View() == ChosenRow(old(View()), env, i)
    {
      if i < |disks| && !disks[i].live {
        if env.present(disks[i]) {
          target := i;
          confirmedErase := false;
        } else {
          target := -1;
          SetFailure();
          ProbeDisks(env.disks);
        }
      }
    }

    method ButtonDown(env: Env, at: Spot)
      requires checks.Length == CHECKS
      modifies this
      ensures View() == PressedDown(old(View()), env, at)
    {
      press := Press(false, false, false, false, press.error);
      if at == ContinueSpot && (stage == Welcome || stage == Select) {
        press := press.(go := true);
      } else if at == BackSpot && (stage == Select || stage == Confirm) {
        press := press.(back := true);
      } else {
        DownElsewhere(env, at);
      }
    }

    method DownElsewhere(env: Env, at: Spot)
      requires checks.Length == CHECKS
      modifies this
      ensures View() == PressedOther(old(View()), env, at)
    {
      match stage
      case Select => if at.Row? { SelectRow(env, at.index); }
      case Confirm =>
        if at == EraseBox {
          press := press.(aux := true);
          ToggleErase();
        }
      case Summary =>
        var ready := SummaryVerificationReady();
        if at == CompleteSpot && ready { press := press.(complete := true); }
      case Complete => if at == RestartSpot { press := press.(aux := true); }
      case Failed =>
        if at == RetrySpot {
          press := press.(aux := true, error := Retry);
        } else if at == RepairSpot {
          press := press.(aux := true, error := Repair);
        } else if at == DetailsSpot {
          press := press.(aux := true, error := Details);
        }
      case _ =>
    }

    method ButtonUp(env: Env, at: Spot)
      requires checks.Length == CHECKS && target < |disks|
      modifies this, checks
      ensures View() == ReleasedUp(old(View()), env, at)
    {
      hide ReleasedAux, ActivatedContinue, ActivatedBack, ActivatedComplete, Ready;
      var was := press;
      press := Released;
      if was.go && at == ContinueSpot && (stage == Welcome || stage == Select) {
        ActivateContinue(env);
        return;
      }
      if was.back && at == BackSpot && (stage == Select || stage == Confirm) {
        ActivateBack();
        return;
      }
      if was.complete && stage == Summary && at == CompleteSpot {
        var ready := SummaryVerificationReady();
        if ready {
          ActivateComplete();
          return;
        }
      }
      if was.aux { UpAux(env, was.error, at); }
    }

    method UpAux(env: Env, was: ErrorButton, at: Spot)
      requires checks.Length == CHECKS && target < |disks|
      modifies this, checks
      ensures View() == ReleasedAux(old(View()), env, was, at)
    {
      if stage == Confirm {
        if confirmedErase { StartBackend(env, false); }
      } else if stage == Complete {
        if at == RestartSpot && verified && progress >= 100 {
          restarted := true;
          quit := true;
        }
      } else if stage == Failed {
        if was == Retry || at == RetrySpot {
          StartAgain(env, false);
        } else if was == Repair || at == RepairSpot {
          StartAgain(env, true);
        }
      }
    }

    /** Retry and Repair. */
    method StartAgain(env: Env, repair: bool)
      requires checks.Length == CHECKS && target < |disks|
      modifies this, checks
      ensures View() == Restarted(old(View()), env, repair)
    {
      StopBackend();
      backendFailed := false;
      StartBackend(env, repair);
    }

    method LegacyClick(env: Env, at: Spot)
      requires checks.Length == CHECKS && target < |disks|
      modifies this
      ensures View() == Clicked(old(View()), env, at)
    {
      if at == ContinueSpot && (stage == Welcome || stage == Select) {
        ActivateContinue(env);
      } else if at == BackSpot && (stage == Select || stage == Confirm) {
        ActivateBack();
      } else if at == CompleteSpot {
        ActivateComplete();
      }
    }

    /** The event loop: one event, while the program has not quit. */
    method Handle(env: Env, e: Event)
      requires checks.Length == CHECKS && Inv(View())
      modifies this, checks
      ensures View() == Step(old(View()), env, e) && Inv(View())
    {
      StepKeeps(View(), env, e);
      if quit { return; }
      match e
      case Tick(lines, reported, more, last) => if timer { InstallGuiTick(lines, reported, more, last); }
      case KeyPress(key) => KeyInput(env, key);
      case Down(at) => ButtonDown(env, at);
      case Up(at) => ButtonUp(env, at);
      case Click(at) => LegacyClick(env, at);
    }
  }
}
