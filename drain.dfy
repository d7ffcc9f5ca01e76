/**
 * The drain task of src/main.rs: every 50 ms it visits the captured output of each tor
 * in turn and logs it once it is UTF-8 text. Each method of `OutputBuffer` is one
 * critical section; between two of them the capture thread may push more bytes.
 */
module Drain {
  import opened Numbers
  import opened Capture
  import Utf8

  /** The bytes of `chunks`, one chunk after the other. */
  function Concat(chunks: seq<seq<Byte>>): seq<Byte>
    decreases |chunks|
  {
    if chunks == [] then [] else Concat(chunks[..|chunks| - 1]) + chunks[|chunks| - 1]
  }

  /** The texts a drain loop logs, read one after the other, are text as well. */
  lemma {:induction false} LoggedTextsAreText(texts: seq<seq<Byte>>)
    requires forall t :: t in texts ==> Classify(t).Emitted?
    ensures Utf8.Valid(Concat(texts))
    decreases |texts|
  {
    if texts != [] {
      var n := |texts| - 1;
      assert texts[n] in texts;
      assert forall t :: t in texts[..n] ==> t in texts;
      LoggedTextsAreText(texts[..n]);
      Utf8.ValidConcat(Concat(texts[..n]), texts[n]);
    }
  }

  /** The bytes the capture thread pushes just before passes `lo` to `hi - 1`, in order. */
  function Pushed(between: seq<seq<Byte>>, lo: nat, hi: nat): seq<Byte>
    requires lo <= hi <= |between|
    decreases hi - lo
  {
    if lo == hi then [] else between[lo] + Pushed(between, lo + 1, hi)
  }

  lemma {:induction false} PushedSnoc(between: seq<seq<Byte>>, lo: nat, hi: nat)
    requires lo <= hi < |between|
    ensures Pushed(between, lo, hi + 1) == Pushed(between, lo, hi) + between[hi]
    decreases hi - lo
  {
    if lo < hi {
      PushedSnoc(between, lo + 1, hi);
      assert between[lo] + (Pushed(between, lo + 1, hi) + between[hi])
          == (between[lo] + Pushed(between, lo + 1, hi)) + between[hi];
    }
  }

  /** No chunk holds a byte: the capture thread pushes nothing. */
  predicate NoAppends(between: seq<seq<Byte>>) {
    forall k :: 0 <= k < |between| ==> between[k] == []
  }

  /** What a run of the inner loop comes to: the texts logged, whether it left, the passes made, the bytes left. */
  datatype DrainRun = DrainRun(texts: seq<seq<Byte>>, exited: bool, passes: nat, held: seq<Byte>)

  /**
   * The inner `loop` of the drain task as written, from pass `from` on, with the buffer
   * holding `data`. The guard is dropped at the end of every pass, so just before pass k
   * the capture thread may push `between[k]`; the run is cut after the last of them (the
   * source has no bound). It leaves only on a pass that finds the buffer empty.
   */
  function RunAsWritten(data: seq<Byte>, between: seq<seq<Byte>>, from: nat): (r: DrainRun)
    requires from <= |between|
    ensures r.passes <= |between| - from
    ensures r.exited ==> r.passes >= 1 && r.held == []
    ensures !r.exited ==> r.passes == |between| - from
    decreases |between| - from
  {
    if from == |between| then DrainRun([], false, 0, data)
    else
      var d := data + between[from];
      match Classify(d)
      case Empty => DrainRun([], true, 1, [])
      case Invalid =>
        var r := RunAsWritten(d, between, from + 1);
        r.(passes := r.passes + 1)
      case Emitted(t) =>
        var r := RunAsWritten([], between, from + 1);
        r.(texts := [t] + r.texts, passes := r.passes + 1)
  }

  /** The run `r` preceded by `k` passes that logged `texts`. */
  function After(texts: seq<seq<Byte>>, k: nat, r: DrainRun): DrainRun {
    r.(texts := texts + r.texts, passes := r.passes + k)
  }

  /** Runs compose: `j` passes, then `k` passes, then `r`. */
  lemma AfterAfter(a: seq<seq<Byte>>, j: nat, b: seq<seq<Byte>>, k: nat, r: DrainRun)
    ensures After(a, j, After(b, k, r)) == After(a + b, j + k, r)
  {
    assert a + (b + r.texts) == (a + b) + r.texts;
  }

  /** The run from pass `from`, after `k` passes that logged `texts`, unfolded by one pass. */
  lemma PassStep(data: seq<Byte>, between: seq<seq<Byte>>, from: nat, texts: seq<seq<Byte>>, k: nat)
    requires from < |between|
    ensures var d := data + between[from];
      var before := After(texts, k, RunAsWritten(data, between, from));
      match Classify(d)
      case Empty => before == DrainRun(texts, true, k + 1, [])
      case Invalid => before == After(texts, k + 1, RunAsWritten(d, between, from + 1))
      case Emitted(t) => before == After(texts + [t], k + 1, RunAsWritten([], between, from + 1))
  {
    var d := data + between[from];
    match Classify(d)
    case Empty =>
      assert texts + [] == texts;
    case Invalid =>
    case Emitted(t) =>
      AfterAfter(texts, k, [t], 1, RunAsWritten([], between, from + 1));
  }

  /**
   * One pass of the inner loop as written, preceded by what the capture thread pushed
   * while the lock was free: the run from this pass on, after `k` passes that logged
   * `texts`, is this pass followed by the run from the next one.
   */
  method DrainPass(out: OutputBuffer, between: seq<seq<Byte>>, from: nat, ghost texts: seq<seq<Byte>>, ghost k: nat)
    returns (o: DrainOutcome)
    requires out.Valid() && from < |between|
    modifies out
    ensures out.Valid()
    ensures out.appended == old(out.appended) + between[from]
    ensures out.drained == old(out.drained) + (if o.Emitted? then o.text else [])
    ensures out.data == if o.Emitted? then [] else old(out.data) + between[from]
    ensures var before := After(texts, k, RunAsWritten(old(out.data), between, from));
      match o
      case Empty => before == DrainRun(texts, true, k + 1, [])
      case Invalid => before == After(texts, k + 1, RunAsWritten(out.data, between, from + 1))
      case Emitted(t) => before == After(texts + [t], k + 1, RunAsWritten([], between, from + 1))
  {
    PassStep(out.data, between, from, texts, k);
    AppendEach(out, between[from]);
    o := out.DrainStep();
  }

  /** The inner `loop` as written, pass by pass under the lock; see `RunAsWritten`. */
  method DrainBufferAsWritten(out: OutputBuffer, between: seq<seq<Byte>>)
    returns (texts: seq<seq<Byte>>, exited: bool, passes: nat)
    requires out.Valid()
    modifies out
    ensures out.Valid()
    ensures DrainRun(texts, exited, passes, out.data) == RunAsWritten(old(out.data), between, 0)
    ensures out.appended == old(out.appended) + Pushed(between, 0, passes)
  {
    ghost var start := out.data;
    texts, exited, passes := [], false, 0;
    while passes < |between|
      invariant passes <= |between|
      invariant out.Valid() && !exited
      invariant out.appended == old(out.appended) + Pushed(between, 0, passes)
      invariant RunAsWritten(start, between, 0) == After(texts, passes, RunAsWritten(out.data, between, passes))
    {
      PushedSnoc(between, 0, passes);
      ghost var appended0 := out.appended;
      var o := DrainPass(out, between, passes, texts, passes);
      assert out.appended == old(out.appended) + Pushed(between, 0, passes + 1) by {
        assert appended0 + between[passes] == old(out.appended) + (Pushed(between, 0, passes) + between[passes]);
      }
      passes := passes + 1;
      match o
      case Empty =>
        exited := true;
        break;
      case Emitted(text) =>
        texts := texts + [text];
      case Invalid =>
    }
  }

  /** `Concat` read from the front. */
  lemma {:induction false} ConcatCons(x: seq<Byte>, xs: seq<seq<Byte>>)
    ensures Concat([x] + xs) == x + Concat(xs)
    decreases |xs|
  {
    if xs == [] {
      var single: seq<seq<Byte>> := [x];
      assert [x] + xs == single && single[..0] == [];
    } else {
      var n := |xs| - 1;
      assert ([x] + xs)[..n + 1] == [x] + xs[..n];
      ConcatCons(x, xs[..n]);
    }
  }

  /** The bytes a run logs followed by what it leaves are what it started from plus what was pushed. */
  ghost predicate Conserves(data: seq<Byte>, between: seq<seq<Byte>>, from: nat)
    requires from <= |between|
  {
    var r := RunAsWritten(data, between, from);
    Concat(r.texts) + r.held == data + Pushed(between, from, from + r.passes)
  }

  /** A pass that keeps bytes that are not text: what the rest of the run conserves, the run does. */
  lemma ConservesKeeping(data: seq<Byte>, between: seq<seq<Byte>>, from: nat)
    requires from < |between| && Classify(data + between[from]) == Invalid
    requires Conserves(data + between[from], between, from + 1)
    ensures Conserves(data, between, from)
  {
    var d := data + between[from];
    var r := RunAsWritten(d, between, from + 1);
    var later := Pushed(between, from + 1, from + 1 + r.passes);
    assert Pushed(between, from, from + 1 + r.passes) == between[from] + later;
    assert data + (between[from] + later) == d + later;
  }

  /** A pass that logs text: what the rest of the run, from an empty buffer, conserves, the run does. */
  lemma ConservesLogging(data: seq<Byte>, between: seq<seq<Byte>>, from: nat)
    requires from < |between| && Classify(data + between[from]).Emitted?
    requires Conserves([], between, from + 1)
    ensures Conserves(data, between, from)
  {
    var d := data + between[from];
    var r := RunAsWritten([], between, from + 1);
    var whole := RunAsWritten(data, between, from);
    var later := Pushed(between, from + 1, from + 1 + r.passes);
    assert whole == r.(texts := [d] + r.texts, passes := r.passes + 1);
    calc {
      Concat(whole.texts) + whole.held;
      Concat([d] + r.texts) + r.held;
      { ConcatCons(d, r.texts); }
      (d + Concat(r.texts)) + r.held;
      d + (Concat(r.texts) + r.held);
      { assert [] + later == later; }
      d + later;
      data + (between[from] + later);
      data + Pushed(between, from, from + whole.passes);
    }
  }

  /**
   * Nothing is lost or logged twice: the texts a run logs followed by what it leaves in
   * the buffer are the bytes it started from followed by every byte pushed during it.
   */
  lemma {:induction false} RunConserves(data: seq<Byte>, between: seq<seq<Byte>>, from: nat)
    requires from <= |between|
    ensures Conserves(data, between, from)
    decreases |between| - from
  {
    if from == |between| {
      assert data + [] == data;
    } else {
      var d := data + between[from];
      match Classify(d)
      case Empty =>
        assert Pushed(between, from, from + 1) == between[from] + [];
      case Invalid =>
        RunConserves(d, between, from + 1);
        ConservesKeeping(data, between, from);
      case Emitted(t) =>
        RunConserves([], between, from + 1);
        ConservesLogging(data, between, from);
    }
  }

  /** Everything a run logs is non-empty text. */
  lemma {:induction false} RunLogsText(data: seq<Byte>, between: seq<seq<Byte>>, from: nat)
    requires from <= |between|
    ensures forall t :: t in RunAsWritten(data, between, from).texts ==> Classify(t).Emitted?
    decreases |between| - from
  {
    if from < |between| {
      var d := data + between[from];
      match Classify(d)
      case Empty =>
      case Invalid => RunLogsText(d, between, from + 1);
      case Emitted(t) => RunLogsText([], between, from + 1);
    }
  }

  /**
   * Once a 0xFF has reached the buffer the loop as written never leaves it, whatever the
   * capture thread pushes afterwards: nothing more is logged and the byte stays.
   */
  lemma {:induction false} RunSpinsOnStrayByte(data: seq<Byte>, between: seq<seq<Byte>>, from: nat)
    requires from <= |between| && 0xFF in data
    ensures var r := RunAsWritten(data, between, from);
      !r.exited && r.texts == [] && 0xFF in r.held
    decreases |between| - from
  {
    if from < |between| {
      var d := data + between[from];
      Utf8.StrayByteNeverValid(d);
      RunSpinsOnStrayByte(d, between, from + 1);
    }
  }

  /** With nothing pushed, bytes that are not text stay, and the loop never leaves. */
  lemma {:induction false} RunStallsOnInvalid(data: seq<Byte>, between: seq<seq<Byte>>, from: nat)
    requires from <= |between| && NoAppends(between) && Classify(data) == Invalid
    ensures RunAsWritten(data, between, from) == DrainRun([], false, |between| - from, data)
    decreases |between| - from
  {
    if from < |between| {
      assert data + between[from] == data;
      RunStallsOnInvalid(data, between, from + 1);
    }
  }

  /**
   * With nothing pushed while it runs (the tor has gone quiet or has exited), the loop
   * leaves at once on an empty buffer, logs valid text once and leaves at the next pass,
   * and never leaves a buffer that is not text, such as one cut inside a character.
   */
  lemma RunLeftAlone(data: seq<Byte>, between: seq<seq<Byte>>, from: nat)
    requires from <= |between| && NoAppends(between)
    ensures var r := RunAsWritten(data, between, from);
      var n := |between| - from;
      && (r.exited <==> (data == [] && n >= 1) || (Classify(data).Emitted? && n >= 2))
      && (Classify(data) == Invalid ==> !r.exited && r.held == data && r.texts == [])
      && r.texts == if Classify(data).Emitted? && n >= 1 then [data] else []
  {
    if from < |between| {
      assert data + between[from] == data;
      match Classify(data)
      case Empty =>
      case Invalid => RunStallsOnInvalid(data, between, from + 1);
      case Emitted(t) =>
        if from + 1 < |between| {
          assert [] + between[from + 1] == [];
        }
    }
  }

  /**
   * A character cut in two is completed by a later push and then logged whole: E2 82,
   * then AC pushed before the second pass, then nothing.
   */
  lemma RunCompletesSplitCharacter()
    ensures RunAsWritten([0xE2, 0x82], [[], [0xAC], []], 0) == DrainRun([[0xE2, 0x82, 0xAC]], true, 3, [])
  {
    Utf8.SplitCharacterExamples();
    var between: seq<seq<Byte>> := [[], [0xAC], []];
    var cut: seq<Byte> := [0xE2, 0x82];
    assert cut + [] == cut;
    assert cut + [0xAC] == [0xE2, 0x82, 0xAC];
    assert RunAsWritten([], between, 2) == DrainRun([], true, 1, []);
    assert RunAsWritten(cut, between, 1) == DrainRun([[0xE2, 0x82, 0xAC]], true, 2, []);
  }

  /**
   * The inner drain loop as evidently intended: log and clear valid text, and leave the
   * loop on an empty buffer or on bytes that are not (yet) UTF-8, which stay for the
   * next tick. It always returns.
   */
  method DrainBuffer(out: OutputBuffer) returns (texts: seq<seq<Byte>>)
    requires out.Valid()
    modifies out
    ensures out.Valid() && out.appended == old(out.appended)
    ensures out.data == if Classify(old(out.data)).Invalid? then old(out.data) else []
    ensures texts == if Classify(old(out.data)).Emitted? then [old(out.data)] else []
    ensures out.drained == old(out.drained) + (if texts == [] then [] else texts[0])
  {
    texts := [];
    while true
      invariant out.Valid() && out.appended == old(out.appended)
      invariant out.data == old(out.data) || out.data == []
      invariant texts == if out.data == old(out.data) then [] else [old(out.data)]
      invariant texts != [] ==> Classify(old(out.data)).Emitted?
      invariant out.drained == old(out.drained) + (if texts == [] then [] else texts[0])
      decreases |out.data|
    {
      var o := out.DrainStep();
      match o
      case Empty =>
        break;
      case Invalid =>
        break;
      case Emitted(text) =>
        texts := texts + [text];
    }
  }

  /** What the intended drain leaves in a buffer that held `data`. */
  function Kept(data: seq<Byte>): seq<Byte> {
    if Classify(data).Invalid? then data else []
  }

  /** A log line `"{i}: {text}"`. */
  datatype LogLine = LogLine(index: nat, text: seq<Byte>)

  function Contents(outs: seq<OutputBuffer>): (c: seq<seq<Byte>>)
    reads set o | o in outs
    ensures |c| == |outs| && forall i :: 0 <= i < |outs| ==> c[i] == outs[i].data
  {
    seq(|outs|, i reads set o | o in outs requires 0 <= i < |outs| => outs[i].data)
  }

  /** The lines one drain tick logs for buffers holding `contents`. */
  function TickLog(contents: seq<seq<Byte>>): seq<LogLine>
    decreases |contents|
  {
    if contents == [] then []
    else
      var n := |contents| - 1;
      TickLog(contents[..n]) + (if Classify(contents[n]).Emitted? then [LogLine(n, contents[n])] else [])
  }

  /** The lines for the first `i + 1` buffers: those for the first `i`, then buffer `i`'s. */
  lemma TickLogStep(contents: seq<seq<Byte>>, i: nat, texts: seq<seq<Byte>>)
    requires i < |contents|
    requires texts == if Classify(contents[i]).Emitted? then [contents[i]] else []
    ensures TickLog(contents[..i + 1]) == TickLog(contents[..i]) + (if texts == [] then [] else [LogLine(i, texts[0])])
  {
    assert contents[..i + 1][..i] == contents[..i];
  }

  /**
   * One tick of the drain task (the body of its outer `loop`, before the sleep), with
   * the intended inner loop: every buffer is visited in order; valid text is logged
   * under the buffer's index and cleared; bytes that are not UTF-8 stay.
   */
  method DrainTick(outs: seq<OutputBuffer>) returns (lines: seq<LogLine>)
    requires forall i, j :: 0 <= i < j < |outs| ==> outs[i] != outs[j]
    requires forall i :: 0 <= i < |outs| ==> outs[i].Valid()
    modifies set o | o in outs
    ensures lines == TickLog(old(Contents(outs)))
    ensures forall i :: 0 <= i < |outs| ==>
      && outs[i].Valid()
      && outs[i].appended == old(outs[i].appended)
      && outs[i].data == Kept(old(outs[i].data))
  {
    ghost var before := Contents(outs);
    lines := [];
    for i := 0 to |outs|
      invariant lines == TickLog(before[..i])
      invariant forall j :: 0 <= j < |outs| ==>
        && outs[j].Valid()
        && outs[j].appended == old(outs[j].appended)
        && outs[j].data == (if j < i then Kept(before[j]) else before[j])
    {
      var out := outs[i];
      var texts := DrainBuffer(out);
      assert forall j :: 0 <= j < |outs| && j != i ==> outs[j] != out;
      TickLogStep(before, i, texts);
      if texts != [] {
        lines := lines + [LogLine(i, texts[0])];
      }
    }
    assert before[..|outs|] == before;
  }

  /**
   * A tor whose output holds a byte that is never UTF-8 (0xFF) stalls the drain loop
   * as written: whatever the capture thread pushes between passes, and however many
   * passes it makes, it never leaves that buffer and the byte stays.
   */
  method DrainAsWrittenSpinsOnInvalidByte(between: seq<seq<Byte>>) returns (exited: bool, held: seq<Byte>)
    ensures !exited
    ensures 0xFF in held
  {
    var out := new OutputBuffer();
    out.Append(0xFF);
    RunSpinsOnStrayByte(out.data, between, 0);
    var texts, passes;
    texts, exited, passes := DrainBufferAsWritten(out, between);
    held := out.data;
  }

  /** Output that is all ASCII is logged and cleared by the first pass that finds it. */
  lemma AsciiOutputIsLogged(data: seq<Byte>)
    requires data != [] && forall i :: 0 <= i < |data| ==> data[i] <= 0x7F
    ensures Classify(data) == Emitted(data)
  {
    Utf8.AsciiIsValid(data);
  }

  /** The same buffer under the intended loop: the tick returns, keeping the byte for later. */
  method DrainSkipsInvalidByte() returns (texts: seq<seq<Byte>>, held: seq<Byte>)
    ensures texts == [] && held == [0xFF]
  {
    var out := new OutputBuffer();
    out.Append(0xFF);
    Utf8.SplitCharacterExamples();
    texts := DrainBuffer(out);
    held := out.data;
  }
}
