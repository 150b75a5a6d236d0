/**
 * The sequence executor of the control window (`_run_sequence` and `_execute_blocks`).
 * A run is modelled as the trace of what it does, in order: status-line updates, messages
 * handed to the sender and the delays the timer waits between blocks.
 */
module Executor {
  import opened Wrappers
  import opened Workspace
  import opened Encoder

  datatype Effect =
    | Show(status: Status)   // the status line is set
    | Send(message: string)  // `_send_bt(message)` is called
    | Pause(ms: int)         // the next block runs `ms` milliseconds later

  /**
   * `_execute_blocks(blocks, index, vel)`: a speed block changes the running speed and
   * waits; every other block shows its step, sends one frame at the running speed and
   * waits its delay; past the last block the run reports completion and sends a bare `S`.
   */
  function Execution(blocks: seq<Block>, index: nat, vel: Speed): seq<Effect>
    decreases |blocks| - index
  {
    if index >= |blocks| then [Show(SequenceCompleted), Send("S")]
    else
      var b := blocks[index];
      if b.action == Velocidad then
        [Pause(BlockDelay(b))] + Execution(blocks, index + 1, NextSpeed(vel, b.param))
      else
        [Show(Executing(index + 1, |blocks|, b.action)), Send(Frame(b.action, vel)), Pause(BlockDelay(b))]
        + Execution(blocks, index + 1, vel)
  }

  /**
   * Whatever the blocks, the chain from `index` has at least one effect per remaining
   * block and ends by reporting completion and sending a bare `S`.
   */
  lemma {:induction false} ExecutionEnds(blocks: seq<Block>, index: nat, vel: Speed)
    ensures var r := Execution(blocks, index, vel);
      && |r| >= 2 && |r| >= |blocks| - index + 2
      && r[|r| - 2] == Show(SequenceCompleted) && r[|r| - 1] == Send("S")
    decreases |blocks| - index
  {
    if index < |blocks| {
      var b := blocks[index];
      var next := if b.action == Velocidad then NextSpeed(vel, b.param) else vel;
      ExecutionEnds(blocks, index + 1, next);
      var rest := Execution(blocks, index + 1, next);
      var r := Execution(blocks, index, vel);
      var n := |r| - |rest|;
      assert r[n..] == rest;
      assert r[|r| - 2] == r[n..][|rest| - 2] && r[|r| - 1] == r[n..][|rest| - 1];
    }
  }

  /** `_run_sequence`: nothing to run on an empty list; otherwise execute in canvas order at speed 5. */
  function RunEffects(blocks: seq<Block>): (r: seq<Effect>)
    ensures r != []
    ensures r[|r| - 1] == Show(NothingToRun) <==> blocks == []
    ensures blocks != [] ==> r[|r| - 1] == Send("S") && |r| >= |blocks| + 2
  {
    if blocks == [] then [Show(NothingToRun)]
    else
      ExecutionEnds(SortBlocks(blocks), 0, DefaultSpeed);
      Execution(SortBlocks(blocks), 0, DefaultSpeed)
  }

  /** The messages a trace sends, in order. */
  function Messages(effects: seq<Effect>): (r: seq<string>)
    ensures |r| <= |effects|
  {
    if effects == [] then []
    else (if effects[0].Send? then [effects[0].message] else []) + Messages(effects[1..])
  }

  /** The delays a trace waits, in order. */
  function Pauses(effects: seq<Effect>): (r: seq<int>)
    ensures |r| <= |effects|
  {
    if effects == [] then []
    else (if effects[0].Pause? then [effects[0].ms] else []) + Pauses(effects[1..])
  }

  /** The status line a trace leaves behind, starting from `shown`. */
  function LastStatus(effects: seq<Effect>, shown: Status): Status {
    if effects == [] then shown
    else LastStatus(effects[1..], if effects[0].Show? then effects[0].status else shown)
  }

  // ---------------------------------------------------------------------------
  // Reference definitions over the block list alone
  // ---------------------------------------------------------------------------

  /** The running speed after the blocks `bs`, starting from `vel`. */
  function SpeedAfter(bs: seq<Block>, vel: Speed): Speed {
    if bs == [] then vel
    else SpeedAfter(bs[1..], if bs[0].action == Velocidad then NextSpeed(vel, bs[0].param) else vel)
  }

  /** The number of blocks that are not speed blocks. */
  function Moves(bs: seq<Block>): (n: nat)
    ensures n <= |bs|
  {
    if bs == [] then 0 else (if bs[0].action == Velocidad then 0 else 1) + Moves(bs[1..])
  }

  /**
   * The frame of every non-speed block of `bs`, each at the speed set by the speed blocks
   * before it.
   */
  function Frames(bs: seq<Block>, vel: Speed): (r: seq<string>)
    ensures |r| == Moves(bs)
  {
    if bs == [] then []
    else if bs[0].action == Velocidad then Frames(bs[1..], NextSpeed(vel, bs[0].param))
    else [Frame(bs[0].action, vel)] + Frames(bs[1..], vel)
  }

  /** The delay of every block of `bs`, in order. */
  function Delays(bs: seq<Block>): (r: seq<int>)
    ensures |r| == |bs|
    ensures forall k | 0 <= k < |r| :: r[k] == BlockDelay(bs[k])
  {
    if bs == [] then [] else [BlockDelay(bs[0])] + Delays(bs[1..])
  }

  // ---------------------------------------------------------------------------
  // Properties
  // ---------------------------------------------------------------------------

  lemma {:induction false} LastStatusAppend(a: seq<Effect>, b: seq<Effect>, shown: Status)
    ensures LastStatus(a + b, shown) == LastStatus(b, LastStatus(a, shown))
  {
    if a != [] {
      assert (a + b)[1..] == a[1..] + b;
      LastStatusAppend(a[1..], b, if a[0].Show? then a[0].status else shown);
    } else {
      assert a + b == b;
    }
  }

  /** Extending a trace by one effect extends its messages and its status line accordingly. */
  lemma TraceSnoc(effects: seq<Effect>, i: nat, shown: Status)
    requires i < |effects|
    ensures Messages(effects[..i + 1]) ==
      Messages(effects[..i]) + (if effects[i].Send? then [effects[i].message] else [])
    ensures LastStatus(effects[..i + 1], shown) ==
      (if effects[i].Show? then effects[i].status else LastStatus(effects[..i], shown))
  {
    var e := effects[i];
    assert effects[..i + 1] == effects[..i] + [e];
    MessagesAppend(effects[..i], [e]);
    LastStatusAppend(effects[..i], [e], shown);
    assert [e][1..] == [];
  }

  /** One step of a non-speed block: show, send, wait. */
  lemma StepEffects(s: Status, m: string, ms: int, rest: seq<Effect>, shown: Status)
    ensures Messages([Show(s), Send(m), Pause(ms)] + rest) == [m] + Messages(rest)
    ensures Pauses([Show(s), Send(m), Pause(ms)] + rest) == [ms] + Pauses(rest)
    ensures LastStatus([Show(s), Send(m), Pause(ms)] + rest, shown) == LastStatus(rest, s)
  {
    var e := [Show(s), Send(m), Pause(ms)] + rest;
    var e1 := [Send(m), Pause(ms)] + rest;
    var e2 := [Pause(ms)] + rest;
    assert e[0] == Show(s) && e[1..] == e1;
    assert e1[0] == Send(m) && e1[1..] == e2;
    assert e2[0] == Pause(ms) && e2[1..] == rest;
    assert Messages(e) == Messages(e1);
    assert Messages(e1) == [m] + Messages(e2);
    assert Messages(e2) == Messages(rest);
    assert Pauses(e) == Pauses(e2);
    assert Pauses(e2) == [ms] + Pauses(rest);
    assert LastStatus(e, shown) == LastStatus(e1, s) == LastStatus(e2, s);
  }

  lemma FramesCons(x: Block, rest: seq<Block>, vel: Speed)
    ensures Frames([x] + rest, vel) ==
      if x.action == Velocidad then Frames(rest, NextSpeed(vel, x.param))
      else [Frame(x.action, vel)] + Frames(rest, vel)
  {
    assert ([x] + rest)[1..] == rest;
  }

  /** Every frame of a run is a command letter followed by at least two digits. */
  lemma {:induction false} FramesShape(bs: seq<Block>, vel: Speed)
    ensures var r := Frames(bs, vel);
            forall k | 0 <= k < |r| ::
              |r[k]| >= 3 && r[k][0] in "FBLRS" && forall i | 1 <= i < |r[k]| :: IsDigit(r[k][i])
  {
    if bs != [] {
      var x, tail := bs[0], bs[1..];
      assert bs == [x] + tail;
      var vel' := if x.action == Velocidad then NextSpeed(vel, x.param) else vel;
      FramesShape(tail, vel');
      FramesCons(x, tail, vel);
    }
  }

  lemma {:induction false} MessagesAppend(a: seq<Effect>, b: seq<Effect>)
    ensures Messages(a + b) == Messages(a) + Messages(b)
  {
    if a != [] {
      MessagesAppend(a[1..], b);
      assert (a + b)[1..] == a[1..] + b;
    } else {
      assert a + b == b;
    }
  }

  lemma {:induction false} PausesAppend(a: seq<Effect>, b: seq<Effect>)
    ensures Pauses(a + b) == Pauses(a) + Pauses(b)
  {
    if a != [] {
      PausesAppend(a[1..], b);
      assert (a + b)[1..] == a[1..] + b;
    } else {
      assert a + b == b;
    }
  }

  /**
   * From block `index` on, a run sends the frames of the remaining blocks at the running
   * speed, then exactly one bare `S`.
   */
  lemma {:induction false} ExecutionMessages(blocks: seq<Block>, index: nat, vel: Speed)
    requires index <= |blocks|
    ensures Messages(Execution(blocks, index, vel)) == Frames(blocks[index..], vel) + ["S"]
    decreases |blocks| - index
  {
    var e := Execution(blocks, index, vel);
    if index == |blocks| {
      assert Messages(e[1..]) == ["S"] by { assert e[1..][1..] == []; }
    } else {
      var b := blocks[index];
      var rest := blocks[index..];
      assert rest[0] == b && rest[1..] == blocks[index + 1..];
      if b.action == Velocidad {
        var vel' := NextSpeed(vel, b.param);
        ExecutionMessages(blocks, index + 1, vel');
        assert e[1..] == Execution(blocks, index + 1, vel');
      } else {
        ExecutionMessages(blocks, index + 1, vel);
        StepEffects(Executing(index + 1, |blocks|, b.action), Frame(b.action, vel), BlockDelay(b),
                    Execution(blocks, index + 1, vel), Ready);
      }
    }
  }

  /** From block `index` on, a run waits each remaining block's delay once, in order. */
  lemma {:induction false} ExecutionPauses(blocks: seq<Block>, index: nat, vel: Speed)
    requires index <= |blocks|
    ensures Pauses(Execution(blocks, index, vel)) == Delays(blocks[index..])
    decreases |blocks| - index
  {
    var e := Execution(blocks, index, vel);
    if index == |blocks| {
      assert Pauses(e[1..]) == [] by { assert e[1..][1..] == []; }
    } else {
      var b := blocks[index];
      var rest := blocks[index..];
      assert rest[0] == b && rest[1..] == blocks[index + 1..];
      if b.action == Velocidad {
        var vel' := NextSpeed(vel, b.param);
        ExecutionPauses(blocks, index + 1, vel');
        assert e[1..] == Execution(blocks, index + 1, vel');
      } else {
        ExecutionPauses(blocks, index + 1, vel);
        StepEffects(Executing(index + 1, |blocks|, b.action), Frame(b.action, vel), BlockDelay(b),
                    Execution(blocks, index + 1, vel), Ready);
      }
    }
  }

  /** A run always leaves the status line at "completed". */
  lemma {:induction false} ExecutionEndsCompleted(blocks: seq<Block>, index: nat, vel: Speed, shown: Status)
    ensures LastStatus(Execution(blocks, index, vel), shown) == SequenceCompleted
    decreases |blocks| - index
  {
    var e := Execution(blocks, index, vel);
    if index >= |blocks| {
      assert e == [Show(SequenceCompleted), Send("S")];
      assert e[1..] == [Send("S")] && e[1..][1..] == [];
      assert LastStatus(e, shown) == LastStatus(e[1..], SequenceCompleted);
      assert LastStatus(e[1..], SequenceCompleted) == LastStatus([], SequenceCompleted);
    } else {
      var b := blocks[index];
      if b.action == Velocidad {
        assert e[1..] == Execution(blocks, index + 1, NextSpeed(vel, b.param));
        ExecutionEndsCompleted(blocks, index + 1, NextSpeed(vel, b.param), shown);
      } else {
        var s := Executing(index + 1, |blocks|, b.action);
        StepEffects(s, Frame(b.action, vel), BlockDelay(b), Execution(blocks, index + 1, vel), shown);
        ExecutionEndsCompleted(blocks, index + 1, vel, s);
      }
    }
  }

  /**
   * Speed is a running modifier: the frames of `a + b` are those of `a`, then those of `b`
   * at the speed `a` leaves behind; a speed block never changes a frame before it.
   */
  lemma {:induction false} FramesSplit(a: seq<Block>, b: seq<Block>, vel: Speed)
    ensures Frames(a + b, vel) == Frames(a, vel) + Frames(b, SpeedAfter(a, vel))
  {
    if a == [] {
      assert a + b == b;
    } else {
      var x := a[0];
      assert (a + b)[0] == x && (a + b)[1..] == a[1..] + b;
      var vel' := if x.action == Velocidad then NextSpeed(vel, x.param) else vel;
      FramesSplit(a[1..], b, vel');
      if x.action != Velocidad {
        var f, rest := Frame(x.action, vel), Frames(a[1..], vel);
        assert [f] + (rest + Frames(b, SpeedAfter(a[1..], vel))) == ([f] + rest) + Frames(b, SpeedAfter(a[1..], vel));
      }
    }
  }

  lemma {:induction false} MovesInsert(x: Block, s: seq<Block>)
    ensures Moves(Insert(x, s)) == Moves(s) + (if x.action == Velocidad then 0 else 1)
  {
    if s != [] && !KeyLe(x, s[0]) {
      MovesInsert(x, s[1..]);
      assert ([s[0]] + Insert(x, s[1..]))[1..] == Insert(x, s[1..]);
    } else {
      assert ([x] + s)[1..] == s;
    }
  }

  lemma {:induction false} MovesSorted(s: seq<Block>)
    ensures Moves(SortBlocks(s)) == Moves(s)
  {
    if s != [] {
      MovesSorted(s[1..]);
      MovesInsert(s[0], SortBlocks(s[1..]));
    }
  }

  /**
   * The shape of a run: an empty list sends nothing and only shows "nothing to run";
   * otherwise one frame per non-speed block, then a single bare `S` as the last message,
   * and one delay per block in canvas order.
   */
  lemma RunShape(blocks: seq<Block>)
    ensures blocks == [] ==> RunEffects(blocks) == [Show(NothingToRun)] && Messages(RunEffects(blocks)) == []
    ensures blocks != [] ==>
      var ms := Messages(RunEffects(blocks));
      && |ms| == Moves(blocks) + 1
      && ms[|ms| - 1] == "S"
      && (forall k | 0 <= k < |ms| - 1 :: ms[k] != "S")
      && Pauses(RunEffects(blocks)) == Delays(SortBlocks(blocks))
      && LastStatus(RunEffects(blocks), Ready) == SequenceCompleted
  {
    if blocks == [] {
      assert [Show(NothingToRun)][1..] == [];
    } else {
      var sorted := SortBlocks(blocks);
      ExecutionMessages(sorted, 0, DefaultSpeed);
      ExecutionPauses(sorted, 0, DefaultSpeed);
      ExecutionEndsCompleted(sorted, 0, DefaultSpeed, Ready);
      MovesSorted(blocks);
      var fs := Frames(sorted, DefaultSpeed);
      FramesShape(sorted, DefaultSpeed);
      assert sorted[0..] == sorted;
      forall k | 0 <= k < |fs| ensures (fs + ["S"])[k] != "S" {
        assert (fs + ["S"])[k] == fs[k] && |fs[k]| >= 3;
      }
    }
  }

  /**
   * A non-empty run sends the frames of the blocks in canvas order, then `S`, and waits
   * their delays in that order.
   */
  lemma RunMessagesAndPauses(blocks: seq<Block>)
    requires blocks != []
    ensures Messages(RunEffects(blocks)) == Frames(SortBlocks(blocks), DefaultSpeed) + ["S"]
    ensures Pauses(RunEffects(blocks)) == Delays(SortBlocks(blocks))
  {
    var sorted := SortBlocks(blocks);
    ExecutionMessages(sorted, 0, DefaultSpeed);
    ExecutionPauses(sorted, 0, DefaultSpeed);
    assert sorted[0..] == sorted;
  }

  /** Forward 2 s, speed 9, forward 2 s, stacked top to bottom on the canvas. */
  const ForwardSpeedForward: seq<Block> := [
    Block(1, 1, Adelante, Some(Entry(Some(2), Some(2.0))), 0, 10),
    Block(2, 2, Velocidad, Some(Entry(Some(9), Some(9.0))), 0, 20),
    Block(3, 3, Adelante, Some(Entry(Some(2), Some(2.0))), 0, 30)]

  lemma ExampleInCanvasOrder()
    ensures SortBlocks(ForwardSpeedForward) == ForwardSpeedForward
  {
    var bs := ForwardSpeedForward;
    var b1, b2, b3 := bs[0], bs[1], bs[2];
    assert bs[1..] == [b2, b3] && bs[1..][1..] == [b3] && bs[1..][1..][1..] == [];
    assert SortBlocks([b3]) == [b3];
    assert SortBlocks([b2, b3]) == Insert(b2, [b3]) == [b2, b3];
    assert Insert(b1, [b2, b3]) == [b1, b2, b3];
  }

  lemma ExampleFrames()
    ensures Frames(ForwardSpeedForward, DefaultSpeed) == ["F141", "F255"]
  {
    var bs := ForwardSpeedForward;
    var b1, b2, b3 := bs[0], bs[1], bs[2];
    SpeedPwmValues();
    assert DecimalString(141) == "141" by {
      assert DecimalString(14) == DecimalString(1) + ['4'];
    }
    assert DecimalString(255) == "255" by {
      assert DecimalString(25) == DecimalString(2) + ['5'];
    }
    var f5, f9 := Frame(Adelante, 5), Frame(Adelante, 9);
    assert f5 == "F141" by { assert f5 == ['F'] + DecimalString(141); }
    assert f9 == "F255" by { assert f9 == ['F'] + DecimalString(255); }
    assert bs == [b1] + ([b2] + [b3]);
    FramesCons(b3, [], 9);
    assert [b3] + [] == [b3];
    assert Frames([b3], 9) == [f9];
    FramesCons(b2, [b3], 5);
    assert NextSpeed(5, b2.param) == 9;
    assert Frames([b2] + [b3], 5) == [f9];
    FramesCons(b1, [b2] + [b3], 5);
    assert Frames(bs, 5) == [f5] + [f9];
  }

  lemma ExampleDelays()
    ensures Delays(ForwardSpeedForward) == [2000, 400, 2000]
  {
    var bs := ForwardSpeedForward;
    assert Trunc(2.0) == 2;
    assert BlockDelay(bs[0]) == 2000 && BlockDelay(bs[1]) == 400 && BlockDelay(bs[2]) == 2000;
  }

  /**
   * A speed block affects only the blocks after it: in forward, speed 9, forward, the first
   * frame uses the default scale 5 (byte 141), the second scale 9 (byte 255), then the
   * bare stop; the delays are 2 s, 400 ms and 2 s.
   */
  lemma SpeedChangeExample()
    ensures Messages(RunEffects(ForwardSpeedForward)) == ["F141", "F255", "S"]
    ensures Pauses(RunEffects(ForwardSpeedForward)) == [2000, 400, 2000]
  {
    var bs := ForwardSpeedForward;
    ExampleInCanvasOrder();
    RunMessagesAndPauses(bs);
    ExampleFrames();
    ExampleDelays();
  }

  lemma AppendAssoc(a: seq<Effect>, b: seq<Effect>, c: seq<Effect>)
    ensures (a + b) + c == a + (b + c)
  {
  }

  /**
   * `_run_sequence` followed by the chain of `_execute_blocks` steps: reject an empty
   * list, sort by canvas position, then walk the blocks once carrying the running speed.
   */
  method Execute(blocks: seq<Block>) returns (effects: seq<Effect>)
    ensures effects == RunEffects(blocks)
  {
    if |blocks| == 0 {
      return [Show(NothingToRun)];
    }
    var sorted := SortBlocks(blocks);
    ghost var whole := Execution(sorted, 0, DefaultSpeed);
    assert whole == RunEffects(blocks);
    effects := [];
    var index := 0;
    var vel: Speed := DefaultSpeed;
    while index < |sorted|
      invariant 0 <= index <= |sorted|
      invariant effects + Execution(sorted, index, vel) == whole
    {
      var b := sorted[index];
      var step: seq<Effect>;
      var next: Speed := vel;
      if b.action == Velocidad {
        step := [Pause(BlockDelay(b))];
        next := NextSpeed(vel, b.param);
      } else {
        step := [Show(Executing(index + 1, |sorted|, b.action)), Send(Frame(b.action, vel)), Pause(BlockDelay(b))];
      }
      ghost var rest := Execution(sorted, index + 1, next);
      assert Execution(sorted, index, vel) == step + rest;
      AppendAssoc(effects, step, rest);
      effects := effects + step;
      vel := next;
      index := index + 1;
    }
    effects := effects + [Show(SequenceCompleted), Send("S")];
  }
}
