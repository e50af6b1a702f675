/** The shared-memory block that shm_thread (src/tsa_server_pro.c) publishes and the viewer
    (src/tsa_top.c) copies, word by word, under a sequence number. The writer may fill the block
    in any order, any number of times per word, and the copy may take words in any order. */
module Seqlock {

  datatype Word = Absent | Have(v: nat)

  datatype Writer = Idle | Loaded(n: nat) | Writing(n: nat)
  datatype Reader = Waiting | Copying(start: nat, local: seq<Word>)

  datatype Frame = Frame(number: nat, words: seq<nat>)

  /** Shared memory, the two programs, then history: `published[k]` is the block as it stood when
      the sequence number became 2k, and `shown` is what the viewer accepted. */
  datatype State = State(number: nat, block: seq<nat>, writer: Writer, reader: Reader, lastShown: nat,
                         published: seq<seq<nat>>, shown: seq<Frame>)

  datatype Event = LoadNumber | MakeOdd | Write(i: nat, v: nat) | MakeEven | Look | CopyWord(i: nat) | Compare

  ghost predicate Init(s: State) {
    && s.number == 0 && s.writer.Idle? && s.reader.Waiting? && s.lastShown == 0
    && s.published == [s.block] && s.shown == []
  }

  predicate Complete(local: seq<Word>) { forall i :: 0 <= i < |local| ==> local[i].Have? }

  function Words(local: seq<Word>): (w: seq<nat>)
    requires Complete(local)
    ensures |w| == |local| && forall i :: 0 <= i < |w| ==> w[i] == local[i].v
  {
    seq(|local|, i requires 0 <= i < |local| => local[i].v)
  }

  function Step(s: State, ev: Event): (r: State) {
    match ev
    case LoadNumber => if s.writer.Idle? then s.(writer := Loaded(s.number)) else s
    case MakeOdd => if s.writer.Loaded? then s.(number := s.writer.n + 1, writer := Writing(s.writer.n)) else s
    case Write(i, v) => if s.writer.Writing? && i < |s.block| then s.(block := s.block[i := v]) else s
    case MakeEven =>
      if s.writer.Writing? then s.(number := s.writer.n + 2, writer := Idle, published := s.published + [s.block]) else s
    case Look =>
      if s.reader.Waiting? && s.number != s.lastShown && s.number % 2 == 0 then
        s.(reader := Copying(s.number, seq(|s.block|, _ => Absent)))
      else s
    case CopyWord(i) =>
      if s.reader.Copying? && i < |s.block| && i < |s.reader.local| && s.reader.local[i].Absent? then
        s.(reader := Copying(s.reader.start, s.reader.local[i := Have(s.block[i])]))
      else s
    case Compare =>
      if s.reader.Copying? && Complete(s.reader.local) then
        if s.reader.start == s.number then
          s.(reader := Waiting, lastShown := s.number, shown := s.shown + [Frame(s.number, Words(s.reader.local))])
        else s.(reader := Waiting)
      else s
  }

  function Run(s: State, events: seq<Event>): (r: State)
    decreases |events|
  {
    if events == [] then s else Run(Step(s, events[0]), events[1..])
  }

  ghost predicate WriterOk(s: State) {
    && s.published != []
    && (s.writer.Writing? ==> s.number == s.writer.n + 1 && s.writer.n == 2 * (|s.published| - 1))
    && (s.writer.Loaded? ==> s.writer.n == s.number)
    && (!s.writer.Writing? ==> s.number == 2 * (|s.published| - 1) && s.block == s.published[|s.published| - 1])
    && forall k :: 0 <= k < |s.published| ==> |s.published[k]| == |s.block|
  }

  // A copy taken under a number that still stands came from the published block alone.
  ghost predicate ReaderOk(s: State)
    requires s.published != []
  {
    && s.lastShown <= s.number
    && (s.reader.Copying? ==>
          && s.lastShown < s.reader.start <= s.number && s.reader.start % 2 == 0 && |s.reader.local| == |s.block|
          && (s.reader.start == s.number ==>
                forall i :: 0 <= i < |s.block| && s.reader.local[i].Have? ==> s.reader.local[i].v == s.block[i]))
  }

  ghost predicate FrameOk(f: Frame, published: seq<seq<nat>>) {
    f.number % 2 == 0 && 0 < f.number / 2 < |published| && f.words == published[f.number / 2]
  }

  ghost predicate ShownOk(s: State) {
    && (forall i :: 0 <= i < |s.shown| ==> FrameOk(s.shown[i], s.published) && s.shown[i].number <= s.lastShown)
    && (forall i, j :: 0 <= i < j < |s.shown| ==> s.shown[i].number < s.shown[j].number)
  }

  ghost predicate Inv(s: State) { WriterOk(s) && ReaderOk(s) && ShownOk(s) }

  lemma {:induction false} StepProtocol(s: State, ev: Event)
    requires WriterOk(s) && ReaderOk(s)
    ensures WriterOk(Step(s, ev)) && ReaderOk(Step(s, ev))
  {
    hide Words;
  }

  lemma {:induction false} StepShown(s: State, ev: Event)
    requires WriterOk(s) && ReaderOk(s) && ShownOk(s)
    ensures ShownOk(Step(s, ev))
  {
    if ev.Compare? && s.reader.Copying? && Complete(s.reader.local) && s.reader.start == s.number {
      assert Words(s.reader.local) == s.block;
    }
    hide Words;
  }

  lemma {:induction false} RunInv(s: State, events: seq<Event>)
    requires Inv(s)
    ensures Inv(Run(s, events))
    decreases |events|
  {
    hide Step;
    hide WriterOk;
    hide ReaderOk;
    hide ShownOk;
    if events != [] {
      StepProtocol(s, events[0]);
      StepShown(s, events[0]);
      RunInv(Step(s, events[0]), events[1..]);
    }
  }

  /** In every interleaving, each copy the viewer accepts is one published block, whole, and the
      viewer never goes back to a block or shows one twice. */
  lemma {:induction false} AcceptedIsPublished(s: State, events: seq<Event>)
    requires Init(s)
    ensures var r := Run(s, events);
      && (forall i :: 0 <= i < |r.shown| ==>
            var f := r.shown[i]; f.number % 2 == 0 && f.number / 2 < |r.published| && f.words == r.published[f.number / 2])
      && (forall i, j :: 0 <= i < j < |r.shown| ==> r.shown[i].number < r.shown[j].number)
  {
    RunInv(s, events);
  }

  // The rest of an undisturbed copy.
  function CopyFrom(i: nat, size: nat): (events: seq<Event>)
    requires i <= size
    decreases size - i
  {
    if i == size then [Compare] else [CopyWord(i)] + CopyFrom(i + 1, size)
  }

  lemma {:induction false} CopyRest(s: State, i: nat)
    requires s.reader.Copying? && s.reader.start == s.number && i <= |s.block| == |s.reader.local|
    requires forall j :: 0 <= j < |s.block| ==> s.reader.local[j] == if j < i then Have(s.block[j]) else Absent
    ensures Run(s, CopyFrom(i, |s.block|)) ==
            s.(reader := Waiting, lastShown := s.number, shown := s.shown + [Frame(s.number, s.block)])
    decreases |s.block| - i
  {
    var events := CopyFrom(i, |s.block|);
    var next := Step(s, events[0]);
    if i < |s.block| {
      assert events[1..] == CopyFrom(i + 1, |s.block|);
      CopyRest(next, i + 1);
    } else {
      assert Words(s.reader.local) == s.block;
      assert events[1..] == [] && Run(next, []) == next;
    }
  }

  /** A viewer left alone with a new block accepts it. */
  lemma {:induction false} QuietCopyAccepted(s: State)
    requires Inv(s) && s.reader.Waiting? && !s.writer.Writing? && s.number != s.lastShown
    ensures Run(s, [Look] + CopyFrom(0, |s.block|)).shown ==
            s.shown + [Frame(s.number, s.published[|s.published| - 1])]
  {
    var events := [Look] + CopyFrom(0, |s.block|);
    assert events[1..] == CopyFrom(0, |s.block|);
    CopyRest(Step(s, Look), 0);
  }
}
