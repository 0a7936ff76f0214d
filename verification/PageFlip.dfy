/** ml_display_commit, ml_display_wait and ml_display_pixels (hardware/kms.c) against an
    asynchronous kernel: two dumb buffers, one outstanding page flip. */
module PageFlip {
  import opened Wrappers

  type Pixel = int
  type Row = seq<Pixel>
  type Surface = seq<Row>

  datatype Event = FlipComplete | Vblank

  /** What the kernel does on its own: a vertical blank, or the end of a queued flip. */
  datatype Step = Blank | Finish

  datatype Answer = Accepted | Busy | Refused

  /** What happens before the kernel's next reply: its own steps, the answer to a flip request, how
      many queued events one read returns, and whether a poll fails. */
  datatype Turn = Turn(steps: seq<Step>, answer: Answer, chunk: nat, fault: bool)

  /** The kernel's side: the buffer on the screen, the one queued to replace it, unread events. */
  datatype Crtc = Crtc(scanout: nat, queued: Option<nat>, events: seq<Event>)

  function Completions(events: seq<Event>): nat {
    if events == [] then 0 else (if events[0] == FlipComplete then 1 else 0) + Completions(events[1..])
  }

  lemma {:induction false} CompletionsAppend(a: seq<Event>, b: seq<Event>)
    ensures Completions(a + b) == Completions(a) + Completions(b)
  {
    if a == [] {
      assert a + b == b;
    } else {
      CompletionsAppend(a[1..], b);
      assert (a + b)[1..] == a[1..] + b;
    }
  }

  lemma {:induction false} NoCompletion(a: seq<Event>)
    ensures Completions(a) == 0 <==> FlipComplete !in a
  {
    if a != [] {
      NoCompletion(a[1..]);
      assert a == [a[0]] + a[1..];
    }
  }

  /** The part of a buffer that reaches the screen: rows can be longer than the screen is wide. */
  function Crop(rows: seq<Row>, w: nat): Surface
    requires forall y :: 0 <= y < |rows| ==> |rows[y]| >= w
  {
    seq(|rows|, y requires 0 <= y < |rows| => rows[y][..w])
  }

  predicate Shaped(src: Surface, w: nat, h: nat) {
    |src| == h && forall y :: 0 <= y < h ==> |src[y]| == w
  }

  /** The kernel takes every flip request. */
  predicate Willing(turns: seq<Turn>) { forall i :: 0 <= i < |turns| ==> turns[i].answer == Accepted }

  /** No poll and no read fails. */
  predicate Faultless(turns: seq<Turn>) { forall i :: 0 <= i < |turns| ==> !turns[i].fault }

  /** A queued flip is finished before the kernel's next reply. */
  predicate Prompt(turns: seq<Turn>) { forall i :: 0 <= i < |turns| ==> Finish in turns[i].steps }

  /** The next turn. When the script is used up, the kernel does all that is asked of it. */
  function Next(script: seq<Turn>): Turn { if script == [] then Turn([Finish], Accepted, 32, false) else script[0] }

  function Left(script: seq<Turn>): (r: seq<Turn>)
    ensures |r| <= |script| && (Willing(script) ==> Willing(r)) && (Faultless(script) ==> Faultless(r)) && (Prompt(script) ==> Prompt(r))
  {
    if script == [] then [] else script[1..]
  }

  /** What is left after n turns. */
  function Later(script: seq<Turn>, n: nat): seq<Turn> { if n == 0 then script else Left(Later(script, n - 1)) }

  /** A flip request is granted at once, or after one busy answer. */
  predicate Granted(script: seq<Turn>) {
    Next(script).answer == Accepted || (Next(script).answer == Busy && Next(Left(script)).answer == Accepted)
  }

  /** What can be seen of a display between two calls; due says that the completion of a pending flip
      will be among the events when the next call polls. */
  datatype Frame = Frame(flips: nat, errors: nat, pending: bool, due: bool, submitted: seq<Surface>, displayed: seq<Surface>)

  datatype Call = Present(src: Surface) | FlipReady

  /** A call of ml_display_wait: nothing is handed over, and a flip is counted exactly when its
      completion is read. If it is there and nothing fails, it is read. */
  predicate Waited(a: Frame, b: Frame, faultless: bool) {
    && b.submitted == a.submitted && a.displayed <= b.displayed && (b.pending ==> a.pending)
    && b.flips == a.flips + (if a.pending && !b.pending then 1 else 0)
    && (faultless && a.due ==> !b.pending)
    && (!a.pending ==> b == a) && (a.pending && !b.pending ==> b.errors == a.errors)
  }

  /** A call of ml_display_commit: the whole surface is handed over once the last flip is retired,
      or the frame is dropped. A willing kernel is handed every surface unless the last flip's
      completion could not be read; every refusal is counted. If nothing fails and the last flip's
      completion is there, a willing kernel is handed the surface. */
  predicate Committed(a: Frame, src: Surface, b: Frame, willing: bool, faultless: bool) {
    && a.displayed <= b.displayed
    && (willing && faultless && a.due ==> b.submitted == a.submitted + [src])
    && (faultless && a.due && a.pending ==> b.flips == a.flips + 1)
    && if b.submitted == a.submitted + [src] then b.pending && b.flips == a.flips + (if a.pending then 1 else 0)
       else
         && b.submitted == a.submitted && (b.errors > a.errors || (a.pending && b.pending)) && (willing ==> a.pending && b.pending)
         && b.flips == a.flips + (if a.pending && !b.pending then 1 else 0)
  }

  predicate Follows(a: Frame, c: Call, b: Frame, willing: bool, faultless: bool) {
    match c
    case Present(src) => Committed(a, src, b, willing, faultless)
    case FlipReady => Waited(a, b, faultless)
  }

  function Other(b: nat): nat { if b == 0 then 1 else 0 }

  class Display {
    const w: nat
    const pitch: nat
    const map0: array<Row>
    const map1: array<Row>

    // the driver's side
    var front: nat
    var flipPending: bool
    var flips: nat
    var flipErrors: nat

    // the kernel's side, and everything it will do
    var crtc: Crtc
    var script: seq<Turn>

    /** A flip was accepted and its completion has not been read. */
    ghost var outstanding: bool
    /** The surfaces whose flip was accepted, and what the screen showed after each completed flip. */
    ghost var submitted: seq<Surface>
    ghost var displayed: seq<Surface>

    function Map(b: nat): array<Row> { if b == 0 then map0 else map1 }

    ghost predicate Allocated()
      reads map0, map1
    {
      && map0 != map1 && map0.Length == map1.Length && pitch >= w
      && (forall y :: 0 <= y < map0.Length ==> |map0[y]| == pitch)
      && (forall y :: 0 <= y < map1.Length ==> |map1[y]| == pitch)
    }

    ghost function Content(b: nat): Surface
      requires Allocated()
      reads map0, map1
    {
      Crop(Map(b)[..], w)
    }

    /** No flip is under way: the front buffer is on the screen and no completion is unread. */
    ghost predicate Quiet()
      reads this`crtc, this`front, this`flips, this`submitted, this`displayed
    {
      && crtc.scanout == front && crtc.queued == None && Completions(crtc.events) == 0
      && displayed == submitted && flips == |displayed|
    }

    /** The one accepted flip, to the buffer that is not the front one, is still queued. */
    ghost predicate Queued()
      requires Allocated()
      reads this`crtc, this`front, this`flips, this`submitted, this`displayed, map0, map1
    {
      && crtc.scanout == front && crtc.queued == Some(Other(front)) && Completions(crtc.events) == 0
      && submitted == displayed + [Content(Other(front))] && flips == |displayed|
    }

    /** It has happened, and its one completion is unread. */
    ghost predicate Finished()
      reads this`crtc, this`front, this`flips, this`submitted, this`displayed
    {
      && crtc.scanout == Other(front) && crtc.queued == None && Completions(crtc.events) == 1
      && displayed == submitted && flips + 1 == |displayed|
    }

    /** What holds between any two steps of driver and kernel. */
    ghost predicate Sound()
      reads this`crtc, this`front, this`flips, this`submitted, this`displayed, this`outstanding, map0, map1
    {
      && Allocated() && front == flips % 2
      && (if outstanding then Queued() || Finished() else Quiet())
      && (displayed != [] ==> Content(crtc.scanout) == displayed[|displayed| - 1])
    }

    ghost predicate Valid()
      reads this, map0, map1
    {
      Sound() && flipPending == outstanding
    }

    /** The completion of the pending flip is queued, or the kernel finishes the flip before its next
        reply. */
    predicate Due()
      reads this
    {
      flipPending ==> FlipComplete in crtc.events || Finish in Next(script).steps
    }

    ghost function Seen(): Frame
      reads this
    {
      Frame(flips, flipErrors, flipPending, Due(), submitted, displayed)
    }

    /** What the screen showed is never taken back, and what is left of the script is a part of it. */
    twostate predicate Onward()
      reads this
    {
      && old(displayed) <= displayed && (Willing(old(script)) ==> Willing(script))
      && (Faultless(old(script)) ==> Faultless(script)) && (Prompt(old(script)) ==> Prompt(script))
    }

    /** After kms_open: buffer 0 is on the screen and nothing was presented. */
    constructor (width: nat, height: nat, rowLength: nat, turns: seq<Turn>)
      requires rowLength >= width
      ensures Valid() && w == width && map0.Length == height
      ensures Seen() == Frame(0, 0, false, true, [], []) && script == turns
      ensures fresh(map0) && fresh(map1)
    {
      w, pitch := width, rowLength;
      map0 := new Row[height](_ => seq(rowLength, _ => 0));
      map1 := new Row[height](_ => seq(rowLength, _ => 0));
      front, flipPending, flips, flipErrors := 0, false, 0, 0;
      crtc, script := Crtc(0, None, []), turns;
      outstanding, submitted, displayed := false, [], [];
    }

    /** One step of the kernel. */
    method KernelStep(s: Step)
      requires Sound()
      modifies this`crtc, this`displayed
      ensures Sound() && old(displayed) <= displayed
      ensures crtc.queued == if s == Finish then None else old(crtc.queued)
      ensures s == Finish && old(crtc.queued).None? ==> crtc == old(crtc)
    {
      match s
      case Blank =>
        CompletionsAppend(crtc.events, [Vblank]);
        crtc := crtc.(events := crtc.events + [Vblank]);
      case Finish =>
        if crtc.queued.Some? {
          CompletionsAppend(crtc.events, [FlipComplete]);
          displayed := displayed + [Content(crtc.queued.value)];
          crtc := Crtc(crtc.queued.value, None, crtc.events + [FlipComplete]);
        }
    }

    /** Between two actions of the driver the kernel takes any number of steps. */
    method Pause() returns (t: Turn)
      requires Sound()
      modifies this`crtc, this`displayed, this`script
      ensures Sound() && Onward() && t == Next(old(script)) && script == Left(old(script))
      ensures crtc.queued == if Finish in t.steps then None else old(crtc.queued)
      ensures old(script) == [] && old(crtc.queued).None? ==> crtc == old(crtc)
    {
      t := Next(script);
      script := Left(script);
      assert script == old(script) == [] ==> t.steps == [Finish];
      for i := 0 to |t.steps|
        invariant Sound() && script == Left(old(script)) && old(displayed) <= displayed
        invariant crtc.queued == if Finish in t.steps[..i] then None else old(crtc.queued)
        invariant old(script) == [] && old(crtc.queued).None? ==> crtc == old(crtc)
      {
        KernelStep(t.steps[i]);
      }
    }

    /** A finished flip whose completion was not read is among the events. */
    lemma Unread()
      requires Sound() && outstanding && crtc.queued.None?
      ensures FlipComplete in crtc.events
    {
      NoCompletion(crtc.events);
    }

    /** A row may only be written in a buffer that is neither on the screen nor queued. */
    method WriteRow(b: nat, y: nat, row: Row)
      requires Allocated() && y < map0.Length && |row| == w
      requires crtc.scanout != b && crtc.queued != Some(b)
      modifies Map(b)
      ensures Map(b)[..] == old(Map(b)[..])[y := row + old(Map(b)[y])[w..]]
    {
      var dst := Map(b);
      dst[y] := row + dst[y][w..];
    }

    /** The kernel's reply to a flip request for buffer b: busy while one is queued. */
    method RequestFlip(b: nat, ghost src: Surface) returns (answer: Answer)
      requires Sound() && !outstanding && b == Other(front) && Content(b) == src
      modifies this`crtc, this`displayed, this`script, this`outstanding, this`submitted
      ensures Sound() && Onward() && outstanding == (answer == Accepted) && answer == Next(old(script)).answer
      ensures answer != Accepted ==> script == Left(old(script))
      ensures submitted == if answer == Accepted then old(submitted) + [src] else old(submitted)
    {
      var t := Pause();
      answer := if crtc.queued.Some? then Busy else t.answer;
      if answer == Accepted {
        crtc := crtc.(queued := Some(b));
        outstanding, submitted := true, submitted + [src];
        var _ := Pause();
      }
    }

    /** The events of one read: stops at the completion and drops what follows it. */
    method Retires(chunk: seq<Event>) returns (found: bool)
      ensures found <==> FlipComplete in chunk
    {
      for off := 0 to |chunk|
        invariant FlipComplete !in chunk[..off]
      {
        if chunk[off] == FlipComplete { return true; }
      }
      return false;
    }

    /** The driver reads the first n events. */
    method Read(n: nat) returns (chunk: seq<Event>)
      requires Sound() && n <= |crtc.events|
      modifies this`crtc, this`outstanding, this`front, this`flips
      ensures Sound() && chunk == old(crtc.events)[..n] && crtc == old(crtc).(events := old(crtc.events)[n..])
      ensures front == if FlipComplete in chunk then Other(old(front)) else old(front)
      ensures flips == old(flips) + if FlipComplete in chunk then 1 else 0
      ensures outstanding == (old(outstanding) && FlipComplete !in chunk)
    {
      ghost var all := crtc.events;
      chunk := crtc.events[..n];
      assert all == all[..n] + all[n..];
      CompletionsAppend(all[..n], all[n..]);
      NoCompletion(chunk);
      crtc := crtc.(events := crtc.events[n..]);
      var found := Retires(chunk);
      if found {
        front := Other(front);
        flips := flips + 1;
        outstanding := false;
      }
    }

    /** ml_display_wait. */
    method Wait() returns (done: bool)
      requires Valid()
      modifies this`crtc, this`displayed, this`script, this`outstanding, this`front
      modifies this`flips, this`flipPending, this`flipErrors
      ensures Valid() && Onward() && done == !flipPending && Waited(old(Seen()), Seen(), Faultless(old(script)))
      ensures flipErrors == old(flipErrors) || (!done && flipErrors == old(flipErrors) + 1)
      ensures !old(flipPending) ==> Seen() == old(Seen()) && crtc == old(crtc) && script == old(script)
    {
      hide Willing, Faultless, Prompt;
      if !flipPending { return true; }
      done := Retire();
    }

    /** The poll and the read loop, with a flip pending. */
    method Retire() returns (done: bool)
      requires Valid() && flipPending
      modifies this`crtc, this`displayed, this`script, this`outstanding, this`front
      modifies this`flips, this`flipPending, this`flipErrors
      ensures Valid() && Onward() && done == !flipPending && flips == old(flips) + if done then 1 else 0
      ensures flipErrors == old(flipErrors) || (!done && flipErrors == old(flipErrors) + 1)
      ensures Faultless(old(script)) && old(Due()) ==> done
    {
      hide Willing, Prompt;
      if FlipComplete in crtc.events { NoneQueued(); }
      var t := Pause();
      if crtc.queued.None? { Unread(); }
      if t.fault || crtc.events == [] {
        flipErrors := flipErrors + 1;
        return false;
      }
      done := Drain();
    }

    lemma NoneQueued()
      requires Sound() && FlipComplete in crtc.events
      ensures crtc.queued.None?
    {
      NoCompletion(crtc.events);
    }

    /** The read loop: until the completion has been read or there is nothing to read. */
    method Drain() returns (done: bool)
      requires Valid() && flipPending
      modifies this`crtc, this`displayed, this`script, this`outstanding, this`front, this`flips, this`flipPending
      ensures Valid() && Onward() && done == !flipPending && flips == old(flips) + if done then 1 else 0
      ensures old(crtc.queued).None? && Faultless(old(script)) ==> done
    {
      var more := true;
      while more
        invariant Valid() && Onward() && flips == old(flips) + (if flipPending then 0 else 1) && (!flipPending ==> !more)
        invariant old(crtc.queued).None? && Faultless(old(script)) && flipPending ==> more && crtc.queued.None?
        decreases more, |script|, crtc.queued.Some?, |crtc.events|
      {
        more := DrainOnce();
      }
      return !flipPending;
    }

    /** One read; more says that the loop goes on. */
    method DrainOnce() returns (more: bool)
      requires Valid() && flipPending
      modifies this`crtc, this`displayed, this`script, this`outstanding, this`front, this`flips, this`flipPending
      ensures Valid() && Onward() && flips == old(flips) + (if flipPending then 0 else 1) && (!flipPending ==> !more)
      ensures more && |script| == |old(script)| ==>
        crtc.queued.None? && (old(crtc.queued).None? ==> |crtc.events| < |old(crtc.events)|)
      ensures |script| <= |old(script)|
      ensures old(crtc.queued).None? && Faultless(old(script)) && flipPending ==> more && crtc.queued.None?
    {
      hide Willing, Prompt, Sound;
      var t := Pause();
      if crtc.queued.None? { Unread(); }
      if t.fault || crtc.events == [] { return false; }
      var n := if 1 <= t.chunk <= |crtc.events| then t.chunk else |crtc.events|;
      var chunk := Read(n);
      if FlipComplete in chunk {
        flipPending := false;
        return false;
      }
      return true;
    }

    /** The row-by-row copy into the buffer that is not the front one, with the kernel running. */
    method CopySurface(src: Surface)
      requires Sound() && !outstanding && Shaped(src, w, map0.Length)
      modifies this`crtc, this`displayed, this`script, Map(Other(front))
      ensures Sound() && Onward() && Content(Other(front)) == src && script == Later(old(script), map0.Length)
    {
      hide Willing, Faultless, Prompt, Next, Left;
      var back := Other(front);
      var y := 0;
      while y < map0.Length
        invariant 0 <= y <= map0.Length && Sound() && Onward() && script == Later(old(script), y)
        invariant forall k :: 0 <= k < y ==> Map(back)[k][..w] == src[k]
        decreases map0.Length - y
      {
        WriteRow(back, y, src[y]);
        var _ := Pause();
        y := y + 1;
      }
    }

    /** The flip request for the buffer just filled. The wait before the retry returns at once: no
        flip of ours is pending here. */
    method Submit(src: Surface)
      requires Valid() && !outstanding && Content(Other(front)) == src
      modifies this`crtc, this`displayed, this`script, this`outstanding, this`front
      modifies this`flips, this`flipPending, this`flipErrors, this`submitted
      ensures Valid() && Onward() && flips == old(flips) && flipPending == Granted(old(script))
      ensures submitted == if flipPending then old(submitted) + [src] else old(submitted)
      ensures flipErrors == old(flipErrors) + if Next(old(script)).answer == Accepted then 0 else 1
    {
      hide Willing, Faultless, Prompt, Next, Left;
      var answer := Ask(src);
      if answer == Accepted { return; }
      flipErrors := flipErrors + 1;
      if answer == Busy {
        var _ := Wait();
        answer := Ask(src);
      }
    }

    /** One flip request, and its note. */
    method Ask(src: Surface) returns (answer: Answer)
      requires Valid() && !outstanding && Content(Other(front)) == src
      modifies this`crtc, this`displayed, this`script, this`outstanding, this`flipPending, this`submitted
      ensures Valid() && Onward() && flipPending == (answer == Accepted) && answer == Next(old(script)).answer
      ensures answer != Accepted ==> script == Left(old(script))
      ensures submitted == if answer == Accepted then old(submitted) + [src] else old(submitted)
    {
      hide Willing, Faultless, Prompt, Next, Left;
      answer := RequestFlip(Other(front), src);
      if answer == Accepted { flipPending := true; }
    }

    /** ml_display_commit. Either the whole surface was handed over, or the frame was dropped. */
    method Commit(src: Surface)
      requires Valid() && Shaped(src, w, map0.Length)
      modifies this, map0, map1
      ensures Valid() && Onward()
      ensures Committed(old(Seen()), src, Seen(), Willing(old(script)), Faultless(old(script)))
      ensures !old(flipPending) ==> flipPending == Granted(Later(old(script), map0.Length))
    {
      if flipPending {
        var done := Wait();
        if !done { return; }
      }
      CopySurface(src);
      Submit(src);
    }
  }

  /** The surfaces presented, in order. */
  function Presented(calls: seq<Call>): seq<Surface> {
    if calls == [] then []
    else (match calls[0] case Present(src) => [src] case FlipReady => []) + Presented(calls[1..])
  }

  /** a is b with some elements left out. */
  predicate Within(a: seq<Surface>, b: seq<Surface>) {
    if a == [] then true
    else if b == [] then false
    else (a[0] == b[0] && Within(a[1..], b[1..])) || Within(a, b[1..])
  }

  lemma {:induction false} WithinAppend(a: seq<Surface>, b: seq<Surface>, x: Surface)
    requires Within(a, b)
    ensures Within(a, b + [x]) && Within(a + [x], b + [x])
    decreases |b|
  {
    if b == [] {
      assert a + [x] == [x] && b + [x] == [x];
      assert [x][1..] == [];
    } else {
      assert (b + [x])[1..] == b[1..] + [x];
      if a == [] {
        WithinAppend([], b[1..], x);
      } else {
        assert (a + [x])[1..] == a[1..] + [x];
        if Within(a, b[1..]) { WithinAppend(a, b[1..], x); }
        if a[0] == b[0] && Within(a[1..], b[1..]) { WithinAppend(a[1..], b[1..], x); }
      }
    }
  }

  lemma {:induction false} PresentedAppend(calls: seq<Call>, c: Call)
    ensures Presented(calls + [c]) == Presented(calls) + Presented([c])
  {
    if calls == [] {
      assert calls + [c] == [c];
    } else {
      PresentedAppend(calls[1..], c);
      assert (calls + [c])[1..] == calls[1..] + [c];
    }
  }

  /** If nothing fails and every flip's completion is there in time, every surface presented is handed
      over. */
  lemma AllHandedOver(log: seq<Frame>, calls: seq<Call>)
    requires |log| == |calls| + 1 && Logged(log, calls, true, true) && forall i :: 0 <= i < |calls| ==> log[i].due
    ensures log[|calls|].submitted == log[0].submitted + Presented(calls)
  {
    for i := 0 to |calls|
      invariant log[i].submitted == log[0].submitted + Presented(calls[..i])
    {
      HandedOver(log[i], calls[i], log[i + 1]);
      assert calls[..i + 1] == calls[..i] + [calls[i]];
      PresentedAppend(calls[..i], calls[i]);
    }
    assert calls[..|calls|] == calls;
  }

  /** Each step of the log is what its call may do. */
  predicate Logged(log: seq<Frame>, calls: seq<Call>, willing: bool, faultless: bool) {
    0 < |log| <= |calls| + 1 && forall i :: 0 <= i < |log| - 1 ==> Follows(log[i], calls[i], log[i + 1], willing, faultless)
  }

  lemma HandedOver(a: Frame, c: Call, b: Frame)
    requires a.due && Follows(a, c, b, true, true)
    ensures b.submitted == a.submitted + Presented([c])
  {
    match c
    case Present(src) => assert Presented([c]) == [src];
    case FlipReady => assert Presented([c]) == [];
  }

  method Serve(d: Display, c: Call, ghost past: seq<Surface>)
    requires d.Valid() && (c.Present? ==> Shaped(c.src, d.w, d.map0.Length)) && Within(d.submitted, past)
    modifies d, d.map0, d.map1
    ensures d.Valid() && d.Onward()
    ensures Follows(old(d.Seen()), c, d.Seen(), Willing(old(d.script)), Faultless(old(d.script)))
    ensures Within(d.submitted, past + Presented([c]))
    ensures Prompt(d.script) ==> d.Due()
  {
    ghost var before := d.submitted;
    match c
    case Present(src) =>
      d.Commit(src);
      assert Presented([c]) == [src];
      WithinAppend(before, past, src);
    case FlipReady =>
      var _ := d.Wait();
      assert past + Presented([c]) == past;
  }

  lemma FollowsWeaker(a: Frame, c: Call, b: Frame, willing: bool, faultless: bool, willing': bool, faultless': bool)
    requires Follows(a, c, b, willing, faultless) && (willing' ==> willing) && (faultless' ==> faultless)
    ensures Follows(a, c, b, willing', faultless')
  {
  }

  /** i calls have been served. */
  ghost predicate Running(d: Display, turns: seq<Turn>, calls: seq<Call>, i: nat, log: seq<Frame>)
    reads d, d.map0, d.map1
  {
    && i <= |calls| && d.Valid() && |log| == i + 1 && log[i] == d.Seen() && log[0] == Frame(0, 0, false, true, [], [])
    && Within(d.submitted, Presented(calls[..i]))
    && (Willing(turns) ==> Willing(d.script)) && (Faultless(turns) ==> Faultless(d.script)) && (Prompt(turns) ==> Prompt(d.script))
    && Logged(log, calls, Willing(turns), Faultless(turns)) && (Prompt(turns) ==> forall j :: 0 <= j <= i ==> log[j].due)
  }

  method ServeNext(d: Display, ghost turns: seq<Turn>, calls: seq<Call>, i: nat, ghost log: seq<Frame>) returns (ghost longer: seq<Frame>)
    requires Running(d, turns, calls, i, log) && i < |calls| && (calls[i].Present? ==> Shaped(calls[i].src, d.w, d.map0.Length))
    modifies d, d.map0, d.map1
    ensures Running(d, turns, calls, i + 1, longer)
  {
    hide Within, Willing, Faultless, Prompt, Shaped, Follows, Presented, Next, Display.Valid;
    assert calls[..i + 1] == calls[..i] + [calls[i]];
    PresentedAppend(calls[..i], calls[i]);
    ghost var w, f := Willing(d.script), Faultless(d.script);
    Serve(d, calls[i], Presented(calls[..i]));
    longer := log + [d.Seen()];
    FollowsWeaker(log[i], calls[i], longer[i + 1], w, f, Willing(turns), Faultless(turns));
  }

  /** Every run, call by call: each call does to what can be seen of the display what a commit or a
      wait may do. What the screen showed is, frame by whole frame, the accepted surfaces in order,
      those are among the presented ones in order, and the counters agree. */
  method AnyRun(width: nat, height: nat, rowLength: nat, turns: seq<Turn>, calls: seq<Call>)
    returns (d: Display, ghost log: seq<Frame>)
    requires rowLength >= width
    requires forall i :: 0 <= i < |calls| && calls[i].Present? ==> Shaped(calls[i].src, width, height)
    ensures |log| == |calls| + 1 && log[0] == Frame(0, 0, false, true, [], []) && log[|calls|] == d.Seen()
    ensures Logged(log, calls, Willing(turns), Faultless(turns))
    ensures Willing(turns) && Faultless(turns) && (Prompt(turns) || forall i :: 0 <= i < |calls| ==> log[i].due) ==>
      d.submitted == Presented(calls)
    ensures d.Valid() && d.front == d.flips % 2
    ensures d.displayed <= d.submitted && |d.submitted| <= |d.displayed| + 1
    ensures Within(d.submitted, Presented(calls))
    ensures d.flips <= |d.displayed| <= d.flips + 1
  {
    d := new Display(width, height, rowLength, turns);
    log := [d.Seen()];
    assert Within(d.submitted, Presented(calls[..0]));
    hide Within, Shaped, Follows, Presented, Next;
    for i := 0 to |calls|
      invariant fresh(d) && fresh(d.map0) && fresh(d.map1) && d.w == width && d.map0.Length == height
      invariant Running(d, turns, calls, i, log)
    {
      log := ServeNext(d, turns, calls, i, log);
    }
    assert calls[..|calls|] == calls;
    if Willing(turns) && Faultless(turns) && forall i :: 0 <= i < |calls| ==> log[i].due { AllHandedOver(log, calls); }
  }
}
