/** The queue between the thread that captures packets and the loop that delivers frames: every packet is cut into
    frames that share its buffer, and the buffer is deleted with the last of them. */
module CaptureQueue {
  import opened Basics

  /** One frame of a packet; the owner deletes the buffer of the packet with itself. */
  datatype Frame = Frame(packet: nat, index: nat, size: nat, owner: bool)

  /** How a frame left the queue: delivered, with as much of it as there was room for, or dropped for a newer one. */
  datatype Removal = Delivered(frame: Frame, taken: nat) | Dropped(frame: Frame)

  /** The queue, the sizes of the frames that the capturing thread still has to post of its current packet, and what
      has happened so far: the packets read, each with the sizes of its frames, the frames posted, those that left the
      queue, and the buffers deleted. Of the packets read, so many have been recorded; a stale one was written to the
      output file when its buffer had been deleted. */
  datatype State = State(queue: seq<Frame>, pending: seq<nat>, read: seq<seq<nat>>, posted: seq<Frame>, removed: seq<Removal>, deleted: seq<nat>,
                         recorded: nat, stale: seq<nat>)

  function Start(): State {
    State([], [], [], [], [], [], 0, [])
  }

  /** The first frame leaves the queue and is deleted. */
  function Popped(s: State, how: Removal): State
    requires s.queue != []
  {
    s.(queue := s.queue[1..], removed := s.removed + [how],
       deleted := if s.queue[0].owner then s.deleted + [s.queue[0].packet] else s.deleted)
  }

  /** Room is made for one more. */
  function Shrunk(s: State, queueSize: nat): (r: State)
    requires queueSize > 0
    decreases |s.queue|
  {
    if |s.queue| < queueSize then s else Shrunk(Popped(s, Dropped(s.queue[0])), queueSize)
  }

  /** The frame that is posted next; the last one of a packet is its owner. */
  function NextFrame(s: State): Frame
    requires s.pending != [] && s.read != [] && |s.pending| <= |s.read[|s.read| - 1]|
  {
    Frame(|s.read| - 1, |s.read[|s.read| - 1]| - |s.pending|, s.pending[0], |s.pending| == 1)
  }

  function Pushed(s: State, f: Frame): State {
    s.(queue := s.queue + [f], posted := s.posted + [f])
  }

  /** What can happen, in any order: a packet is read and cut, its next frame is posted, a frame is delivered into a
      buffer with so much room. Posting and delivering hold the lock. After its last frame the packet is recorded: its
      whole buffer is written to the output file if one is open, without the lock. */
  datatype Step = Read(sizes: seq<nat>) | Post | Deliver(room: nat) | Record(open: bool)

  /** The frames of the last packet are posted, and it is still to be recorded. */
  predicate Recording(s: State) {
    s.pending == [] && s.recorded < |s.read|
  }

  ghost predicate Cutting(s: State) {
    s.pending != [] ==> s.read != [] && |s.pending| <= |s.read[|s.read| - 1]|
  }

  function Next(s: State, step: Step, queueSize: nat): State
    requires queueSize > 0 && Cutting(s)
  {
    match step
    case Read(sizes) => if s.pending == [] && s.recorded == |s.read| then s.(read := s.read + [sizes], pending := sizes) else s
    case Post => if s.pending == [] then s else Pushed(Shrunk(s, queueSize), NextFrame(s)).(pending := s.pending[1..])
    case Deliver(room) => if s.queue == [] then s else Popped(s, Delivered(s.queue[0], MinInt(s.queue[0].size, room)))
    case Record(open) =>
      if !Recording(s) then s
      else
        var p := |s.read| - 1;
        s.(recorded := s.recorded + 1, stale := if open && p in s.deleted then s.stale + [p] else s.stale)
  }

  // ---- what holds in every state

  function Frames(removed: seq<Removal>): (f: seq<Frame>)
    ensures |f| == |removed|
  {
    seq(|removed|, i requires 0 <= i < |removed| => removed[i].frame)
  }

  function Slices(packet: nat, sizes: seq<nat>): (f: seq<Frame>)
    ensures |f| == |sizes|
  {
    seq(|sizes|, i requires 0 <= i < |sizes| => Frame(packet, i, sizes[i], i == |sizes| - 1))
  }

  /** All frames of all packets, in order. */
  function AllSlices(read: seq<seq<nat>>): seq<Frame>
    decreases |read|
  {
    if read == [] then [] else AllSlices(read[..|read| - 1]) + Slices(|read| - 1, read[|read| - 1])
  }

  function Owners(frames: seq<Frame>): seq<nat>
    decreases |frames|
  {
    if frames == [] then []
    else
      var last := frames[|frames| - 1];
      Owners(frames[..|frames| - 1]) + if last.owner then [last.packet] else []
  }

  /** Frames are posted in the order of the packets, they leave in the order they were posted, and buffers are deleted
      with their owners. */
  ghost predicate Inv(s: State, queueSize: nat) {
    && Cutting(s)
    && |s.queue| <= queueSize
    && |s.pending| <= |AllSlices(s.read)|
    && (s.pending != [] ==> s.pending == s.read[|s.read| - 1][|s.read[|s.read| - 1]| - |s.pending|..])
    && s.posted == AllSlices(s.read)[..|AllSlices(s.read)| - |s.pending|]
    && s.posted == Frames(s.removed) + s.queue
    && s.deleted == Owners(Frames(s.removed))
    && s.recorded <= |s.read| <= s.recorded + 1
    && (s.pending != [] ==> s.recorded < |s.read|)
  }

  /** All of that but the number of frames. */
  ghost predicate InOrder(s: State) {
    s.posted == Frames(s.removed) + s.queue && s.deleted == Owners(Frames(s.removed))
  }

  lemma PoppedInOrder(s: State, how: Removal)
    requires s.queue != [] && how.frame == s.queue[0] && InOrder(s)
    ensures InOrder(Popped(s, how))
  {
    var f := Frames(s.removed + [how]);
    assert f == Frames(s.removed) + [s.queue[0]];
    assert f[..|f| - 1] == Frames(s.removed);
    assert s.posted == Frames(s.removed) + ([s.queue[0]] + s.queue[1..]);
  }

  lemma {:induction false} ShrunkInOrder(s: State, queueSize: nat)
    requires queueSize > 0 && InOrder(s)
    ensures var r := Shrunk(s, queueSize);
            && InOrder(r) && |r.queue| < queueSize
            && r.pending == s.pending && r.read == s.read && r.posted == s.posted
            && r.recorded == s.recorded && r.stale == s.stale
    decreases |s.queue|
  {
    hide InOrder;
    if |s.queue| >= queueSize {
      PoppedInOrder(s, Dropped(s.queue[0]));
      ShrunkInOrder(Popped(s, Dropped(s.queue[0])), queueSize);
    }
  }

  /** The next frame to be posted is the next of all frames. */
  lemma NextIsNext(s: State, queueSize: nat)
    requires Inv(s, queueSize) && s.pending != []
    ensures AllSlices(s.read)[|AllSlices(s.read)| - |s.pending|] == NextFrame(s)
  {
  }

  lemma ReadInv(s: State, sizes: seq<nat>, queueSize: nat)
    requires queueSize > 0 && Inv(s, queueSize)
    ensures Inv(Next(s, Read(sizes), queueSize), queueSize)
  {
    hide Owners, Frames;
    var read := s.read + [sizes];
    assert read[..|read| - 1] == s.read;
    assert AllSlices(read)[..|AllSlices(s.read)|] == AllSlices(s.read);
  }

  lemma PostInv(s: State, queueSize: nat)
    requires queueSize > 0 && Inv(s, queueSize)
    ensures Inv(Next(s, Post, queueSize), queueSize)
  {
    hide Owners, AllSlices, Frames;
    if s.pending != [] {
      NextIsNext(s, queueSize);
      ShrunkInOrder(s, queueSize);
      var all := AllSlices(s.read);
      var n := |all| - |s.pending|;
      assert all[..n + 1] == all[..n] + [all[n]];
    }
  }

  lemma DeliverInv(s: State, room: nat, queueSize: nat)
    requires queueSize > 0 && Inv(s, queueSize)
    ensures Inv(Next(s, Deliver(room), queueSize), queueSize)
  {
    hide Owners, AllSlices, Frames;
    if s.queue != [] {
      PoppedInOrder(s, Delivered(s.queue[0], MinInt(s.queue[0].size, room)));
    }
  }

  lemma RecordInv(s: State, open: bool, queueSize: nat)
    requires queueSize > 0 && Inv(s, queueSize)
    ensures Inv(Next(s, Record(open), queueSize), queueSize)
  {
    hide Owners, AllSlices, Frames;
  }

  lemma StepInv(s: State, step: Step, queueSize: nat)
    requires queueSize > 0 && Inv(s, queueSize)
    ensures Inv(Next(s, step, queueSize), queueSize)
  {
    hide AllSlices, Owners, Frames, Next;
    match step
    case Read(sizes) => ReadInv(s, sizes, queueSize);
    case Post => PostInv(s, queueSize);
    case Deliver(room) => DeliverInv(s, room, queueSize);
    case Record(open) => RecordInv(s, open, queueSize);
  }

  function Run(s: State, steps: seq<Step>, queueSize: nat): State
    requires queueSize > 0 && Inv(s, queueSize)
    decreases |steps|
  {
    if steps == [] then s
    else
      StepInv(s, steps[0], queueSize);
      Run(Next(s, steps[0], queueSize), steps[1..], queueSize)
  }

  lemma {:induction false} RunInv(s: State, steps: seq<Step>, queueSize: nat)
    requires queueSize > 0 && Inv(s, queueSize)
    ensures Inv(Run(s, steps, queueSize), queueSize)
    decreases |steps|
  {
    hide AllSlices, Owners, Frames, Next;
    if steps != [] {
      StepInv(s, steps[0], queueSize);
      RunInv(Next(s, steps[0], queueSize), steps[1..], queueSize);
    }
  }

  lemma {:induction false} RunAppend(s: State, a: seq<Step>, b: seq<Step>, queueSize: nat)
    requires queueSize > 0 && Inv(s, queueSize)
    ensures var r := Run(s, a, queueSize);
            Inv(r, queueSize) && Run(s, a + b, queueSize) == Run(r, b, queueSize)
    decreases |a|
  {
    hide Inv, Next;
    RunInv(s, a, queueSize);
    if a == [] {
      assert a + b == b;
    } else {
      CuttingKept(s, queueSize);
      StepInv(s, a[0], queueSize);
      RunAppend(Next(s, a[0], queueSize), a[1..], b, queueSize);
      assert (a + b)[1..] == a[1..] + b;
    }
  }

  // ---- order

  function Sent(removed: seq<Removal>): seq<Frame>
    decreases |removed|
  {
    if removed == [] then []
    else (if removed[0].Delivered? then [removed[0].frame] else []) + Sent(removed[1..])
  }

  ghost predicate Subsequence<T>(a: seq<T>, b: seq<T>)
    decreases |b|
  {
    a == [] || (b != [] && if a[0] == b[0] then Subsequence(a[1..], b[1..]) else Subsequence(a, b[1..]))
  }

  lemma {:induction false} SkipFirst<T>(a: seq<T>, b: seq<T>)
    requires Subsequence(a, b) && a != []
    ensures Subsequence(a[1..], b)
    decreases |b|, 0
  {
    if a[0] == b[0] {
      Insert(a[1..], b[0], b[1..]);
      assert [b[0]] + b[1..] == b;
    } else {
      SkipFirst(a, b[1..]);
      Insert(a[1..], b[0], b[1..]);
      assert [b[0]] + b[1..] == b;
    }
  }

  lemma {:induction false} Insert<T>(a: seq<T>, x: T, b: seq<T>)
    requires Subsequence(a, b)
    ensures Subsequence(a, [x] + b)
    decreases |b|, 1
  {
    assert ([x] + b)[1..] == b;
    if a != [] && a[0] == x {
      SkipFirst(a, b);
    }
  }

  lemma {:induction false} SentInOrder(removed: seq<Removal>, rest: seq<Frame>)
    ensures Subsequence(Sent(removed), Frames(removed) + rest)
    decreases |removed|
  {
    if removed != [] {
      SentInOrder(removed[1..], rest);
      var sent, all := Sent(removed[1..]), Frames(removed[1..]) + rest;
      assert Frames(removed) + rest == [removed[0].frame] + all;
      if removed[0].Delivered? {
        assert ([removed[0].frame] + sent)[1..] == sent && ([removed[0].frame] + all)[1..] == all;
      } else {
        Insert(sent, removed[0].frame, all);
        assert [] + sent == sent;
      }
    }
  }

  /** In every state that can be reached, however posting and delivering are interleaved, the queue keeps its bound,
      the frames posted are those of the packets read, in order, and the frames delivered are some of them, in the same
      order. */
  lemma {:induction false} DeliveredInOrder(steps: seq<Step>, queueSize: nat)
    requires queueSize > 0
    ensures var s := Run(Start(), steps, queueSize);
            && |s.queue| <= queueSize
            && s.posted <= AllSlices(s.read)
            && Subsequence(Sent(s.removed), s.posted)
  {
    RunInv(Start(), steps, queueSize);
    var s := Run(Start(), steps, queueSize);
    SentInOrder(s.removed, s.queue);
  }

  // ---- what is dropped

  lemma {:induction false} ShrunkOnce(s: State, queueSize: nat)
    requires queueSize > 0 && |s.queue| <= queueSize
    ensures Shrunk(s, queueSize) == if |s.queue| < queueSize then s else Popped(s, Dropped(s.queue[0]))
  {
    if |s.queue| >= queueSize {
      var r := Popped(s, Dropped(s.queue[0]));
      assert Shrunk(r, queueSize) == r;
    }
  }

  /** A frame is posted, and there is no room for it. */
  predicate PostedFull(s: State, step: Step, queueSize: nat) {
    step == Post && s.pending != [] && |s.queue| == queueSize
  }

  /** A post adds a frame at the end, of the next size of the packet. A frame is dropped for it only if the queue is full,
      and then just one, the oldest. */
  lemma PostDrops(s: State, queueSize: nat)
    requires queueSize > 0 && Inv(s, queueSize) && s.pending != []
    ensures var r := Next(s, Post, queueSize);
            && |r.queue| == MinInt(|s.queue| + 1, queueSize)
            && r.posted == s.posted + [r.queue[|r.queue| - 1]] && r.queue[|r.queue| - 1].size == s.pending[0]
            && r.queue[..|r.queue| - 1] == (if |s.queue| < queueSize then s.queue else s.queue[1..])
            && r.removed == s.removed + if |s.queue| < queueSize then [] else [Dropped(s.queue[0])]
  {
    hide Inv, Owners;
    QueueBound(s, queueSize);
    CuttingKept(s, queueSize);
    ShrunkOnce(s, queueSize);
    ShrunkPosts(s, queueSize);
    assert s.removed + [] == s.removed;
  }

  lemma QueueBound(s: State, queueSize: nat)
    requires Inv(s, queueSize)
    ensures |s.queue| <= queueSize && s.posted == Frames(s.removed) + s.queue
  {
  }

  /** A delivery takes the oldest frame, and as much of it as there is room for; nothing else takes one. */
  lemma OthersDrop(s: State, step: Step, queueSize: nat)
    requires queueSize > 0 && Inv(s, queueSize) && !(step == Post && s.pending != [])
    ensures var r := Next(s, step, queueSize);
            if step.Deliver? && s.queue != []
            then r.queue == s.queue[1..] && r.removed == s.removed + [Delivered(s.queue[0], MinInt(s.queue[0].size, step.room))]
            else r.queue == s.queue && r.removed == s.removed
  {
    hide Inv, Owners;
    CuttingKept(s, queueSize);
  }

  ghost predicate NoneDropped(removed: seq<Removal>) {
    forall i :: 0 <= i < |removed| ==> removed[i].Delivered?
  }

  lemma DropStep(s: State, step: Step, queueSize: nat)
    requires queueSize > 0 && Inv(s, queueSize)
    ensures NoneDropped(Next(s, step, queueSize).removed) <==> NoneDropped(s.removed) && !PostedFull(s, step, queueSize)
  {
    hide Inv, Next;
    CuttingKept(s, queueSize);
    QueueBound(s, queueSize);
    if step == Post && s.pending != [] {
      PostDrops(s, queueSize);
      MoreRemoved(s.removed, if |s.queue| < queueSize then [] else [Dropped(s.queue[0])]);
    } else {
      OthersDrop(s, step, queueSize);
      if step.Deliver? && s.queue != [] {
        MoreRemoved(s.removed, [Delivered(s.queue[0], MinInt(s.queue[0].size, step.room))]);
      }
    }
  }

  lemma MoreRemoved(a: seq<Removal>, b: seq<Removal>)
    ensures NoneDropped(a + b) <==> NoneDropped(a) && NoneDropped(b)
  {
    assert forall i :: 0 <= i < |a| ==> (a + b)[i] == a[i];
    assert forall i :: 0 <= i < |b| ==> (a + b)[|a| + i] == b[i];
  }

  /** In every run: nothing is dropped if and only if the queue is never full when a frame is posted. */
  lemma {:induction false} DropsOnlyFull(steps: seq<Step>, queueSize: nat)
    requires queueSize > 0
    ensures NoneDropped(Run(Start(), steps, queueSize).removed)
       <==> forall k :: 0 <= k < |steps| ==> !PostedFull(Run(Start(), steps[..k], queueSize), steps[k], queueSize)
    decreases |steps|
  {
    assert Inv(Start(), queueSize);
    hide Inv, Next, PostedFull, NoneDropped;
    if steps == [] {
      assert NoneDropped([]);
    } else {
      var n := |steps| - 1;
      var front := steps[..n];
      DropsOnlyFull(front, queueSize);
      RunAppend(Start(), front, [steps[n]], queueSize);
      assert front + [steps[n]] == steps;
      DropStep(Run(Start(), front, queueSize), steps[n], queueSize);
      assert forall k :: 0 <= k < n ==> front[..k] == steps[..k];
    }
  }

  lemma {:induction false} AllSent(removed: seq<Removal>)
    requires NoneDropped(removed)
    ensures Sent(removed) == Frames(removed)
    decreases |removed|
  {
    if removed != [] {
      AllSent(removed[1..]);
      assert Frames(removed) == [removed[0].frame] + Frames(removed[1..]);
    }
  }

  /** Then every frame that was posted has been delivered, in order, or is still queued. */
  lemma {:induction false} NothingLost(steps: seq<Step>, queueSize: nat)
    requires queueSize > 0
    requires forall k :: 0 <= k < |steps| ==> !PostedFull(Run(Start(), steps[..k], queueSize), steps[k], queueSize)
    ensures var s := Run(Start(), steps, queueSize); s.posted == Sent(s.removed) + s.queue
  {
    hide NoneDropped, PostedFull;
    DropsOnlyFull(steps, queueSize);
    RunInv(Start(), steps, queueSize);
    QueueBound(Run(Start(), steps, queueSize), queueSize);
    AllSent(Run(Start(), steps, queueSize).removed);
  }

  // ---- buffers

  /** Where the frames of a packet begin among all frames. */
  function Offset(read: seq<seq<nat>>, p: nat): nat
    requires p <= |read|
  {
    |AllSlices(read[..p])|
  }

  lemma {:induction false} FramesOf(read: seq<seq<nat>>, p: nat, i: nat)
    requires p < |read| && i < |AllSlices(read)|
    ensures Offset(read, p) <= Offset(read, p + 1) == Offset(read, p) + |read[p]| <= |AllSlices(read)|
    ensures AllSlices(read)[i].packet == p <==> Offset(read, p) <= i < Offset(read, p + 1)
    ensures AllSlices(read)[i].packet == p && AllSlices(read)[i].owner <==> |read[p]| > 0 && i == Offset(read, p + 1) - 1
    decreases |read|
  {
    PacketBound(read, p);
    var n := |read| - 1;
    var front := read[..n];
    assert read[..|read|] == read;
    if i < |AllSlices(front)| {
      if p < n {
        FramesOf(front, p, i);
        assert front[..p] == read[..p] && front[..p + 1] == read[..p + 1];
      } else {
        Earlier(front, i);
      }
    } else if p < n {
      PacketBound(front, p);
      assert front[..p] == read[..p] && front[..p + 1] == read[..p + 1];
    }
  }

  lemma {:induction false} PacketBound(read: seq<seq<nat>>, p: nat)
    requires p < |read|
    ensures Offset(read, p + 1) == Offset(read, p) + |read[p]| <= |AllSlices(read)|
    decreases |read|
  {
    var front := read[..|read| - 1];
    assert read[..|read|] == read;
    assert read[..p + 1][..p] == read[..p];
    if p < |read| - 1 {
      PacketBound(front, p);
      assert front[..p] == read[..p] && front[..p + 1] == read[..p + 1];
    }
  }

  lemma {:induction false} Earlier(read: seq<seq<nat>>, i: nat)
    requires i < |AllSlices(read)|
    ensures AllSlices(read)[i].packet < |read|
    decreases |read|
  {
    if i < |AllSlices(read[..|read| - 1])| {
      Earlier(read[..|read| - 1], i);
    }
  }

  /** The owner of a packet is its last frame; it is deleted once it has left. */
  lemma {:induction false} OwnersOf(read: seq<seq<nat>>, p: nat, m: nat)
    requires p < |read| && m <= |AllSlices(read)|
    ensures multiset(Owners(AllSlices(read)[..m]))[p] == if |read[p]| > 0 && Offset(read, p + 1) <= m then 1 else 0
    decreases m
  {
    var all := AllSlices(read);
    if m == 0 {
      PacketBound(read, p);
    } else {
      OwnersOf(read, p, m - 1);
      FramesOf(read, p, m - 1);
      assert all[..m][..m - 1] == all[..m - 1];
    }
  }

  /** A frame of the packet is still queued, or still to be posted. */
  ghost predicate InUse(s: State, p: nat) {
    (exists i :: 0 <= i < |s.queue| && s.queue[i].packet == p) || (s.pending != [] && p == |s.read| - 1)
  }

  /** A buffer is deleted exactly when none of its frames is queued or still to be posted, and once only; if its packet
      was cut into no frame at all, it is never deleted. */
  lemma DeletedOnce(s: State, queueSize: nat, p: nat)
    requires Inv(s, queueSize) && p < |s.read|
    ensures multiset(s.deleted)[p] == if |s.read[p]| > 0 && !InUse(s, p) then 1 else 0
  {
    hide AllSlices, Owners;
    var all := AllSlices(s.read);
    var m, n := |s.removed|, |s.posted|;
    assert all[..m] == Frames(s.removed);
    OwnersOf(s.read, p, m);
    PacketBound(s.read, p);
    var last := Offset(s.read, p + 1) - 1;
    if |s.read[p]| > 0 {
      FramesOf(s.read, p, last);
      if m <= last < n {
        assert s.queue[last - m] == all[last];
      } else if n <= last {
        LastPacket(s.read, p, |s.pending|);
      } else {
        NoneLeft(s, queueSize, p);
      }
    }
  }

  /** If its last frame is among the last ones, a packet is the last one. */
  lemma {:induction false} LastPacket(read: seq<seq<nat>>, p: nat, n: nat)
    requires p < |read| && n <= |read[|read| - 1]| && |AllSlices(read)| - n < Offset(read, p + 1)
    ensures p == |read| - 1
  {
    if p < |read| - 1 {
      var front := read[..|read| - 1];
      assert front[..p + 1] == read[..p + 1];
      PacketBound(front, p);
    }
  }

  lemma NoneLeft(s: State, queueSize: nat, p: nat)
    requires Inv(s, queueSize) && p < |s.read| && |s.read[p]| > 0 && Offset(s.read, p + 1) <= |s.removed|
    ensures !InUse(s, p)
  {
    hide AllSlices, Owners;
    assert s.read[..|s.read|] == s.read;
    var all := AllSlices(s.read);
    var m := |s.removed|;
    forall i | 0 <= i < |s.queue|
      ensures s.queue[i].packet != p
    {
      assert s.queue[i] == s.posted[m + i] == all[m + i];
      FramesOf(s.read, p, m + i);
    }
  }

  /** Nothing of a packet comes after its owner: not in the queue, and not among the frames still to be posted. */
  lemma OwnerLast(s: State, queueSize: nat, i: nat)
    requires Inv(s, queueSize) && i < |s.queue| && s.queue[i].owner
    ensures forall j :: i < j < |s.queue| ==> s.queue[j].packet != s.queue[i].packet
    ensures s.pending != [] ==> s.queue[i].packet != |s.read| - 1
  {
    hide AllSlices, Owners;
    assert s.read[..|s.read|] == s.read;
    var all := AllSlices(s.read);
    var m := |s.removed|;
    var p := s.queue[i].packet;
    assert s.queue[i] == s.posted[m + i] == all[m + i];
    Earlier(s.read, m + i);
    FramesOf(s.read, p, m + i);
    forall j | i < j < |s.queue|
      ensures s.queue[j].packet != p
    {
      assert s.queue[j] == s.posted[m + j] == all[m + j];
      FramesOf(s.read, p, m + j);
    }
  }

  lemma StartInv(queueSize: nat)
    ensures Inv(Start(), queueSize)
  {
  }

  /** In every state that can be reached, however posting and delivering are interleaved: no buffer is deleted twice,
      none while a frame cut from its packet is queued or still to be posted, and none is forgotten. */
  lemma {:induction false} BuffersSafe(steps: seq<Step>, queueSize: nat, p: nat)
    requires queueSize > 0 && p < |Run(Start(), steps, queueSize).read|
    ensures var s := Run(Start(), steps, queueSize);
            multiset(s.deleted)[p] == if |s.read[p]| > 0 && !InUse(s, p) then 1 else 0
  {
    StartInv(queueSize);
    hide *;
    RunInv(Start(), steps, queueSize);
    DeletedOnce(Run(Start(), steps, queueSize), queueSize, p);
  }

  // ---- recording

  /** Once all frames of the last packet are posted, its buffer is gone exactly when the queue is empty: the last frame
      queued is its owner. */
  lemma GoneWhenEmpty(s: State, queueSize: nat)
    requires Inv(s, queueSize) && s.pending == [] && s.read != []
    ensures |s.read| - 1 in s.deleted <==> s.read[|s.read| - 1] != [] && s.queue == []
  {
    hide Owners;
    var p := |s.read| - 1;
    DeletedOnce(s, queueSize, p);
    assert s.read[p] != [] && s.queue != [] ==> InUse(s, p) by {
      if s.read[p] != [] && s.queue != [] {
        assert s.queue[|s.queue| - 1] == s.posted[|s.posted| - 1];
      }
    }
  }

  /** The buffer is written after it was deleted. */
  predicate WrittenLate(s: State, step: Step) {
    step == Record(true) && Recording(s) && s.queue == [] && s.read[|s.read| - 1] != []
  }

  lemma StaleStep(s: State, step: Step, queueSize: nat)
    requires queueSize > 0 && Inv(s, queueSize)
    ensures Next(s, step, queueSize).stale == if WrittenLate(s, step) then s.stale + [|s.read| - 1] else s.stale
  {
    hide Owners, AllSlices, Frames, Inv;
    CuttingKept(s, queueSize);
    match step
    case Read(sizes) =>
    case Post => ShrunkPosts(s, queueSize);
    case Deliver(room) =>
    case Record(open) =>
      if Recording(s) {
        GoneWhenEmpty(s, queueSize);
      }
  }

  /** In every run: no buffer is written to the output file after it was deleted if and only if, whenever a packet that
      was cut into frames is recorded in an open file, the queue is not empty at that moment. */
  lemma {:induction false} RecordsSafe(steps: seq<Step>, queueSize: nat)
    requires queueSize > 0
    ensures Run(Start(), steps, queueSize).stale == []
       <==> forall k :: 0 <= k < |steps| ==> !WrittenLate(Run(Start(), steps[..k], queueSize), steps[k])
    decreases |steps|
  {
    assert Inv(Start(), queueSize);
    hide Inv, Next, WrittenLate;
    if steps != [] {
      var n := |steps| - 1;
      var front := steps[..n];
      RecordsSafe(front, queueSize);
      RunAppend(Start(), front, [steps[n]], queueSize);
      assert front + [steps[n]] == steps;
      StaleStep(Run(Start(), front, queueSize), steps[n], queueSize);
      assert forall k :: 0 <= k < n ==> front[..k] == steps[..k];
    }
  }

  /** The only frame of a packet is delivered before the packet is recorded. */
  lemma LateWriteExample()
    ensures Run(Start(), [Read([5]), Post, Deliver(5), Record(true)], 1).stale == [0]
  {
  }

  // ---- the source as an object

  class DeviceSource {
    const queueSize: nat
    var captureQueue: seq<Frame>

    /** What has happened to this source so far. */
    ghost var history: State

    ghost predicate Valid()
      reads this
    {
      queueSize > 0 && history.queue == captureQueue && Inv(history, queueSize)
    }

    constructor (queueSize: nat)
      requires queueSize > 0
      ensures Valid() && this.queueSize == queueSize && history == Start()
    {
      this.queueSize := queueSize;
      captureQueue := [];
      history := Start();
    }

    /** queueFrame, under the lock: the oldest frames are dropped until there is room. */
    method QueueFrame(frame: Frame)
      requires Valid() && history.pending != [] && frame == NextFrame(history)
      modifies this
      ensures Valid() && history == Next(old(history), Post, queueSize)
      ensures captureQueue == (if |old(captureQueue)| < queueSize then old(captureQueue) else old(captureQueue)[1..]) + [frame]
    {
      PostDrops(history, queueSize);
      hide Inv;
      PostInv(history, queueSize);
      ghost var next := Next(history, Post, queueSize);
      ghost var s := history;
      while |captureQueue| >= queueSize
        invariant s.queue == captureQueue && Shrunk(s, queueSize) == Shrunk(old(history), queueSize)
        decreases |captureQueue|
      {
        s := Popped(s, Dropped(captureQueue[0]));
        captureQueue := captureQueue[1..];
      }
      captureQueue := captureQueue + [frame];
      history := next;
    }

    /** What the other thread delivers in the meantime, into buffers with so much room. */
    method DeliverAll(rooms: seq<nat>)
      requires Valid()
      modifies this
      ensures Valid() && history == Run(old(history), Deliveries(rooms), queueSize)
      ensures Posting(history) == old(Posting(history))
    {
      hide Inv, Next;
      ghost var done := [];
      for i := 0 to |rooms|
        invariant Valid() && done == Deliveries(rooms[..i]) && Inv(old(history), queueSize)
        invariant history == Run(old(history), done, queueSize) && Posting(history) == old(Posting(history))
      {
        assert Deliveries(rooms[..i + 1]) == done + [Deliver(rooms[i])];
        CuttingKept(history, queueSize);
        RunAppend(old(history), done, [Deliver(rooms[i])], queueSize);
        DeliverPosting(history, rooms[i], queueSize);
        var _, _, _ := DeliverFrame(true, rooms[i]);
        done := done + [Deliver(rooms[i])];
      }
      assert rooms[..|rooms|] == rooms;
    }

    /** processFrame: a packet has been cut into frames of the given sizes; they are queued one after another, and the
        last of them owns the buffer. Before frame i is queued, the other thread delivers into the buffers between[i]. */
    method ProcessFrame(packet: nat, sizes: seq<nat>, between: seq<seq<nat>>)
      requires Valid() && history.pending == [] && packet == |history.read| == history.recorded && |between| == |sizes|
      modifies this
      ensures Valid() && history == Run(old(history), [Read(sizes)] + Posts(between), queueSize)
      ensures Recording(history) && history.read == old(history.read) + [sizes]
    {
      ReadInv(history, sizes, queueSize);
      CuttingKept(history, queueSize);
      ReadStarts(history, sizes, queueSize);
      hide Inv, AllSlices, Owners, Frames, Next, NextFrame, Recording, Run, Posts;
      RunOne(history, Read(sizes), queueSize);
      NonePosted(between, Read(sizes));
      history := Next(history, Read(sizes), queueSize);
      var frameList := sizes;
      var i := 0;
      while frameList != []
        invariant 0 <= i <= |sizes| && frameList == sizes[i..]
        invariant Valid() && Inv(old(history), queueSize) && history == Run(old(history), [Read(sizes)] + Posts(between[..i]), queueSize)
        invariant history.pending == frameList && history.read == old(history.read) + [sizes] && history.recorded == packet
        decreases |frameList|
      {
        PostsRun(old(history), Read(sizes), between, i, queueSize);
        DeliverAll(between[i]);
        PostAdvances(history, queueSize);
        QueueFrame(Frame(packet, i, frameList[0], |frameList| == 1));
        frameList := frameList[1..];
        i := i + 1;
      }
      assert between[..|between|] == between;
    }

    /** postFrame: the packet is queued frame by frame, and then recorded if an output file is open. */
    method PostFrame(packet: nat, sizes: seq<nat>, between: seq<seq<nat>>, last: seq<nat>, open: bool)
      requires Valid() && history.pending == [] && packet == |history.read| == history.recorded && |between| == |sizes|
      modifies this
      ensures Valid() && history == Run(old(history), [Read(sizes)] + Posts(between) + Deliveries(last) + [Record(open)], queueSize)
      ensures history.pending == [] && history.read == old(history.read) + [sizes] && history.recorded == |history.read|
      ensures history.posted == old(history.posted) + Slices(packet, sizes)
    {
      PostedAll(history, queueSize);
      hide Inv, AllSlices, Owners, Frames, Shrunk;
      ghost var done := [Read(sizes)] + Posts(between);
      ProcessFrame(packet, sizes, between);
      RunAppend(old(history), done, Deliveries(last), queueSize);
      DeliverAll(last);
      done := done + Deliveries(last);
      RunAppend(old(history), done, [Record(open)], queueSize);
      RecordInv(history, open, queueSize);
      CuttingKept(history, queueSize);
      history := Next(history, Record(open), queueSize);
      PostedAll(history, queueSize);
      AllSlicesNext(old(history.read), sizes);
    }

    /** deliverFrame, under the lock: the oldest frame goes to the sink, as much of it as there is room for. */
    method DeliverFrame(awaiting: bool, maxSize: nat) returns (frame: Option<Frame>, frameSize: nat, truncated: nat)
      requires Valid()
      modifies this
      ensures Valid()
      ensures history == if awaiting then Next(old(history), Deliver(maxSize), queueSize) else old(history)
      ensures !awaiting || old(captureQueue) == [] ==> history == old(history) && frame == None && frameSize == 0
      ensures awaiting && old(captureQueue) != [] ==>
                && frame == Some(old(captureQueue)[0])
                && frameSize + truncated == old(captureQueue)[0].size && frameSize <= maxSize
                && (truncated > 0 ==> frameSize == maxSize)
    {
      hide Inv;
      frame, frameSize, truncated := None, 0, 0;
      if awaiting && captureQueue != [] {
        CuttingKept(history, queueSize);
        DeliverInv(history, maxSize, queueSize);
        var first := captureQueue[0];
        history := Next(history, Deliver(maxSize), queueSize);
        captureQueue := captureQueue[1..];
        if first.size > maxSize {
          frameSize, truncated := maxSize, first.size - maxSize;
        } else {
          frameSize := first.size;
        }
        frame := Some(first);
      }
    }
  }

  /** What deliveries leave alone. */
  function Posting(s: State): (seq<nat>, seq<seq<nat>>, nat) {
    (s.pending, s.read, s.recorded)
  }

  function Deliveries(rooms: seq<nat>): seq<Step> {
    seq(|rooms|, i requires 0 <= i < |rooms| => Deliver(rooms[i]))
  }

  /** One frame after another, each after the deliveries before it. */
  function Posts(between: seq<seq<nat>>): seq<Step>
    decreases |between|
  {
    if between == [] then []
    else
      var n := |between| - 1;
      Posts(between[..n]) + Deliveries(between[n]) + [Post]
  }

  lemma PostsNext(between: seq<seq<nat>>, i: nat)
    requires i < |between|
    ensures Posts(between[..i + 1]) == Posts(between[..i]) + Deliveries(between[i]) + [Post]
  {
    assert between[..i + 1][..i] == between[..i];
  }

  lemma DeliverPosting(s: State, room: nat, queueSize: nat)
    requires queueSize > 0 && Cutting(s)
    ensures Posting(Next(s, Deliver(room), queueSize)) == Posting(s)
  {
  }

  lemma PostedAll(s: State, queueSize: nat)
    requires Inv(s, queueSize) && s.pending == []
    ensures s.posted == AllSlices(s.read)
  {
  }

  lemma {:induction false} AllSlicesNext(read: seq<seq<nat>>, sizes: seq<nat>)
    ensures AllSlices(read + [sizes]) == AllSlices(read) + Slices(|read|, sizes)
  {
    assert (read + [sizes])[..|read|] == read;
  }

  lemma NonePosted(between: seq<seq<nat>>, step: Step)
    ensures [step] + Posts(between[..0]) == [step]
  {
    assert between[..0] == [];
  }

  /** The deliveries before a post and the post, behind what has been run. */
  lemma {:induction false} PostsRun(s: State, first: Step, between: seq<seq<nat>>, i: nat, queueSize: nat)
    requires queueSize > 0 && Inv(s, queueSize) && i < |between|
    ensures var done := Run(s, [first] + Posts(between[..i]), queueSize);
            && Inv(done, queueSize) && Inv(Run(done, Deliveries(between[i]), queueSize), queueSize)
            && Cutting(Run(done, Deliveries(between[i]), queueSize))
            && Run(s, [first] + Posts(between[..i + 1]), queueSize) == Next(Run(done, Deliveries(between[i]), queueSize), Post, queueSize)
  {
    hide Inv, Next, Posts, Deliveries, Run;
    var done := [first] + Posts(between[..i]);
    RunAppend(s, done, Deliveries(between[i]), queueSize);
    RunAppend(s, done + Deliveries(between[i]), [Post], queueSize);
    RunAppend(Run(s, done, queueSize), Deliveries(between[i]), [Post], queueSize);
    RunOne(Run(s, done + Deliveries(between[i]), queueSize), Post, queueSize);
    PostsNext(between, i);
    assert [first] + Posts(between[..i + 1]) == done + Deliveries(between[i]) + [Post];
  }

  lemma {:induction false} RunOne(s: State, step: Step, queueSize: nat)
    requires queueSize > 0 && Inv(s, queueSize)
    ensures Cutting(s) && Run(s, [step], queueSize) == Next(s, step, queueSize)
  {
    hide Next;
    CuttingKept(s, queueSize);
    StepInv(s, step, queueSize);
  }

  lemma ReadStarts(s: State, sizes: seq<nat>, queueSize: nat)
    requires queueSize > 0 && s.pending == [] && s.recorded == |s.read|
    ensures var r := Next(s, Read(sizes), queueSize);
            r.queue == s.queue && r.pending == sizes && r.read == s.read + [sizes] && r.recorded == s.recorded
  {
  }

  /** A post is of the next frame of the packet, and leaves the others. */
  lemma PostAdvances(s: State, queueSize: nat)
    requires queueSize > 0 && Inv(s, queueSize) && s.pending != []
    ensures Cutting(s) && NextFrame(s) == Frame(|s.read| - 1, |s.read[|s.read| - 1]| - |s.pending|, s.pending[0], |s.pending| == 1)
    ensures var r := Next(s, Post, queueSize); r.pending == s.pending[1..] && r.read == s.read && r.recorded == s.recorded
  {
    CuttingKept(s, queueSize);
    ShrunkPosts(s, queueSize);
  }

  lemma CuttingKept(s: State, queueSize: nat)
    requires Inv(s, queueSize)
    ensures Cutting(s)
  {
  }

  lemma {:induction false} ShrunkPosts(s: State, queueSize: nat)
    requires queueSize > 0
    ensures var r := Shrunk(s, queueSize);
            r.posted == s.posted && r.read == s.read && r.recorded == s.recorded && r.stale == s.stale
    decreases |s.queue|
  {
    if |s.queue| >= queueSize {
      ShrunkPosts(Popped(s, Dropped(s.queue[0])), queueSize);
    }
  }
}
