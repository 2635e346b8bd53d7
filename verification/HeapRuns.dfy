/** Whole runs of kmalloc and kfree, with a client that also writes into its blocks. */
module HeapRuns {
  import opened Arith
  import opened Bitmaps
  import opened Slabs
  import opened Kmalloc

  /** What a client may do next: ask for bytes, return the k-th block it holds, or write into it. */
  datatype Request = Ask(sz: nat) | Return(k: nat) | Fill(k: nat, at: nat, bytes: seq<byte>)

  /** A block a client holds: the pointer it got and the bytes it asked for. */
  datatype Loan = Loan(p: nat, sz: nat)

  /** What the client knows: its blocks, and for each what it last wrote where. */
  datatype Client = Client(held: seq<Loan>, notes: seq<map<nat, byte>>)

  /** Requests of these sizes are sent to kmalloc; others, which it does not serve rightly, the client does not
      make. */
  predicate Sendable(sz: nat) { 28 < sz && sz + 4 <= 0x8000_0000 }

  function Drop<T>(s: seq<T>, k: nat): seq<T>
    requires k < |s|
  {
    s[..k] + s[k + 1..]
  }

  /** A note of bytes written at an offset, over what was noted before. */
  function Noted(note: map<nat, byte>, at: nat, bytes: seq<byte>): (r: map<nat, byte>)
    ensures forall i: nat :: i in r <==> i in note || at <= i < at + |bytes|
    ensures forall i: nat :: i in r ==> r[i] == if at <= i < at + |bytes| then bytes[i - at] else note[i]
  {
    if bytes == [] then note else
      var n := |bytes| - 1;
      Noted(note, at, bytes[..n])[at + n := bytes[n]]
  }

  /** What the client knows after a request; p is what kmalloc returned, if it was asked. */
  function After(c: Client, r: Request, p: nat): Client
    requires |c.notes| == |c.held|
  {
    match r
    case Ask(sz) => if Sendable(sz) then Client(c.held + [Loan(p, sz)], c.notes + [map[]]) else c
    case Return(k) => if k < |c.held| then Client(Drop(c.held, k), Drop(c.notes, k)) else c
    case Fill(k, at, bytes) =>
      if k < |c.held| && at + |bytes| <= c.held[k].sz
      then c.(notes := c.notes[k := Noted(c.notes[k], at, bytes)])
      else c
  }

  /** What the client knows after a run, from the answers it got. */
  function Knows(requests: seq<Request>, answers: seq<nat>): (c: Client)
    requires |answers| == |requests|
    ensures |c.notes| == |c.held|
  {
    if requests == [] then Client([], []) else
      var n := |requests| - 1;
      After(Knows(requests[..n], answers[..n]), requests[n], answers[n])
  }

  // ---------- what holds during a run ----------

  ghost predicate LoanOk(l: Loan, blocks: map<nat, nat>, watched: set<nat>) {
    l.p >= 4 && l.p - 4 in blocks && l.p - 4 !in watched && l.sz + 4 <= Pow2(blocks[l.p - 4])
  }

  /** The client holds different live blocks, each as large as asked for, and none of the watched ones. */
  ghost predicate Lent(held: seq<Loan>, blocks: map<nat, nat>, watched: set<nat>) {
    && (forall i :: 0 <= i < |held| ==> LoanOk(held[i], blocks, watched))
    && (forall i, j :: 0 <= i < j < |held| ==> held[i].p != held[j].p)
  }

  /** Memory holds what the client noted. */
  ghost predicate NoteHolds(m: nat -> byte, l: Loan, note: map<nat, byte>) {
    forall off: nat :: off in note ==> off < l.sz && m(l.p + off) == note[off]
  }

  ghost predicate NotesHold(m: nat -> byte, c: Client) {
    |c.notes| == |c.held| && forall i :: 0 <= i < |c.held| ==> NoteHolds(m, c.held[i], c.notes[i])
  }

  /** The watched blocks are live, with the same classes and the same bytes. */
  ghost predicate Untouched(m: nat -> byte, m': nat -> byte, blocks: map<nat, nat>, blocks': map<nat, nat>,
                            watched: set<nat>) {
    forall p :: p in watched ==>
      p in blocks && p in blocks' && blocks'[p] == blocks[p] &&
      forall x: nat :: InBlock(p, blocks[p], x) ==> m'(x) == m(x)
  }

  /** All of it; m0 and blocks0 are as they were when the run began. */
  ghost predicate Going(m: nat -> byte, blocks: map<nat, nat>, c: Client, watched: set<nat>, m0: nat -> byte,
                        blocks0: map<nat, nat>) {
    Lent(c.held, blocks, watched) && NotesHold(m, c) && Untouched(m0, m, blocks0, blocks, watched)
  }

  lemma {:induction false} StartGoing(m: nat -> byte, blocks: map<nat, nat>, watched: set<nat>)
    requires watched <= blocks.Keys
    ensures Going(m, blocks, Client([], []), watched, m, blocks)
  {
  }

  lemma {:induction false} NoteKept(m: nat -> byte, m': nat -> byte, l: Loan, note: map<nat, byte>,
                                    blocks: map<nat, nat>, other: nat, watched: set<nat>)
    requires LoanOk(l, blocks, watched) && NoteHolds(m, l, note) && l.p - 4 != other
    requires KeptBytes(m, m', blocks - {other})
    ensures NoteHolds(m', l, note)
  {
    var rest := blocks - {other};
    assert l.p - 4 in rest && rest[l.p - 4] == blocks[l.p - 4];
    forall off: nat | off in note
      ensures m'(l.p + off) == note[off]
    {
      assert InBlock(l.p - 4, rest[l.p - 4], l.p + off);
    }
  }

  lemma {:induction false} UntouchedStep(m0: nat -> byte, m: nat -> byte, m': nat -> byte, blocks0: map<nat, nat>,
                                         blocks: map<nat, nat>, blocks': map<nat, nat>, watched: set<nat>,
                                         other: nat)
    requires Untouched(m0, m, blocks0, blocks, watched) && other !in watched && KeptBytes(m, m', blocks - {other})
    requires forall p :: p in blocks && p != other ==> p in blocks' && blocks'[p] == blocks[p]
    ensures Untouched(m0, m', blocks0, blocks', watched)
  {
    hide InBlock;
    var rest := blocks - {other};
    forall p | p in watched
      ensures p in blocks0 && p in blocks' && blocks'[p] == blocks0[p]
      ensures forall x: nat :: InBlock(p, blocks0[p], x) ==> m'(x) == m0(x)
    {
      assert p in rest && rest[p] == blocks[p];
    }
  }

  /** kmalloc answered. */
  lemma {:induction false} AskStep(m: nat -> byte, m': nat -> byte, blocks: map<nat, nat>, c: Client,
                                   watched: set<nat>, m0: nat -> byte, blocks0: map<nat, nat>, sz: nat, p: nat,
                                   l2: nat)
    requires Going(m, blocks, c, watched, m0, blocks0) && Sendable(sz)
    requires p >= 4 && p - 4 !in blocks && sz + 4 <= Pow2(l2) && KeptBytes(m, m', blocks)
    ensures Going(m', blocks[p - 4 := l2], After(c, Ask(sz), p), watched, m0, blocks0)
  {
    hide Pow2, KeptBytes, InBlock, NoteHolds;
    var c', blocks' := After(c, Ask(sz), p), blocks[p - 4 := l2];
    assert blocks - {p - 4} == blocks;
    assert p - 4 !in watched;
    UntouchedStep(m0, m, m', blocks0, blocks, blocks', watched, p - 4);
    forall i | 0 <= i < |c'.held|
      ensures LoanOk(c'.held[i], blocks', watched) && NoteHolds(m', c'.held[i], c'.notes[i])
      ensures i < |c.held| ==> c'.held[i].p != p
    {
      if i < |c.held| {
        assert LoanOk(c.held[i], blocks, watched);
        NoteKept(m, m', c.held[i], c.notes[i], blocks, p - 4, watched);
      } else {
        NoNote(m', c'.held[i]);
      }
    }
  }

  lemma {:induction false} NoNote(m: nat -> byte, l: Loan)
    ensures NoteHolds(m, l, map[])
  {
  }

  /** kfree returned. */
  lemma {:induction false} ReturnStep(m: nat -> byte, m': nat -> byte, blocks: map<nat, nat>, c: Client,
                                      watched: set<nat>, m0: nat -> byte, blocks0: map<nat, nat>, k: nat)
    requires Going(m, blocks, c, watched, m0, blocks0) && k < |c.held|
    requires c.held[k].p >= 4 && KeptBytes(m, m', blocks - {c.held[k].p - 4})
    ensures Going(m', blocks - {c.held[k].p - 4}, After(c, Return(k), 0), watched, m0, blocks0)
  {
    hide Pow2, KeptBytes, InBlock, NoteHolds;
    var other := c.held[k].p - 4;
    var c', blocks' := After(c, Return(k), 0), blocks - {other};
    assert LoanOk(c.held[k], blocks, watched);
    UntouchedStep(m0, m, m', blocks0, blocks, blocks', watched, other);
    forall i | 0 <= i < |c'.held|
      ensures LoanOk(c'.held[i], blocks', watched) && NoteHolds(m', c'.held[i], c'.notes[i])
    {
      var o := if i < k then i else i + 1;
      assert c'.held[i] == c.held[o] && c'.notes[i] == c.notes[o] && LoanOk(c.held[o], blocks, watched);
      NoteKept(m, m', c.held[o], c.notes[o], blocks, other, watched);
    }
  }

  /** A write inside a held block. */
  lemma {:induction false} FillStep(m: nat -> byte, blocks: map<nat, nat>, c: Client, watched: set<nat>,
                                    m0: nat -> byte, blocks0: map<nat, nat>, k: nat, at: nat, bytes: seq<byte>)
    requires Going(m, blocks, c, watched, m0, blocks0) && k < |c.held| && at + |bytes| <= c.held[k].sz
    requires c.held[k].p >= 4 && KeptBytes(m, Copied(m, c.held[k].p + at, bytes), blocks - {c.held[k].p - 4})
    ensures Going(Copied(m, c.held[k].p + at, bytes), blocks, After(c, Fill(k, at, bytes), 0), watched, m0, blocks0)
  {
    hide Pow2, KeptBytes, InBlock, NoteHolds, Copied;
    var other, m' := c.held[k].p - 4, Copied(m, c.held[k].p + at, bytes);
    var c' := After(c, Fill(k, at, bytes), 0);
    assert LoanOk(c.held[k], blocks, watched);
    UntouchedStep(m0, m, m', blocks0, blocks, blocks, watched, other);
    forall i | 0 <= i < |c'.held|
      ensures NoteHolds(m', c'.held[i], c'.notes[i])
    {
      assert LoanOk(c.held[i], blocks, watched);
      if i == k {
        NoteWritten(m, c.held[k], c.notes[k], at, bytes);
      } else {
        NoteKept(m, m', c.held[i], c.notes[i], blocks, other, watched);
      }
    }
  }

  lemma {:induction false} NoteWritten(m: nat -> byte, l: Loan, note: map<nat, byte>, at: nat, bytes: seq<byte>)
    requires NoteHolds(m, l, note) && at + |bytes| <= l.sz
    ensures NoteHolds(Copied(m, l.p + at, bytes), l, Noted(note, at, bytes))
  {
  }

  lemma {:induction false} LoanFacts(m: nat -> byte, blocks: map<nat, nat>, c: Client, watched: set<nat>,
                                     m0: nat -> byte, blocks0: map<nat, nat>, k: nat)
    requires Going(m, blocks, c, watched, m0, blocks0) && k < |c.held|
    ensures c.held[k].p >= 4 && c.held[k].p - 4 in blocks && c.held[k].sz + 4 <= Pow2(blocks[c.held[k].p - 4])
  {
    assert LoanOk(c.held[k], blocks, watched);
  }

  // ---------- the run ----------

  /** One request; answer is what kmalloc returned. */
  method ServeOne(heap: Heap, r: Request, held: seq<Loan>, ghost c: Client, ghost watched: set<nat>,
                  ghost m0: nat -> byte, ghost blocks0: map<nat, nat>)
    returns (ok: bool, held': seq<Loan>, ghost answer: nat)
    requires heap.Valid() && held == c.held && |c.notes| == |c.held|
    requires Going(heap.ram.bytes, heap.blocks, c, watched, m0, blocks0)
    modifies heap, heap.caches, heap.ram, heap.vms.Repr()
    ensures ok ==> heap.Valid() && held' == After(c, r, answer).held
    ensures ok ==> Going(heap.ram.bytes, heap.blocks, After(c, r, answer), watched, m0, blocks0)
    ensures |heap.caches| == 7 && (!ok ==> Refused(heap, r))
  {
    hide Heap.Valid, Going, KeptBytes, Pow2, SizeClass, Copied, Heap.Stops;
    heap.SevenCaches();
    ok, held', answer := true, held, 0;
    ghost var m, blocks := heap.ram.bytes, heap.blocks;
    match r
    case Ask(sz) =>
      if Sendable(sz) {
        var p;
        ok, p := heap.Kmalloc(sz);
        if ok {
          AskStep(m, heap.ram.bytes, blocks, c, watched, m0, blocks0, sz, p, SizeClass(sz + 4));
          held', answer := held + [Loan(p, sz)], p;
        }
      }
    case Return(k) =>
      if k < |held| {
        LoanFacts(m, blocks, c, watched, m0, blocks0, k);
        var passed := heap.Kfree(held[k].p);
        ReturnStep(m, heap.ram.bytes, blocks, c, watched, m0, blocks0, k);
        held' := Drop(held, k);
      }
    case Fill(k, at, bytes) =>
      if k < |held| && at + |bytes| <= held[k].sz {
        LoanFacts(m, blocks, c, watched, m0, blocks0, k);
        heap.Write(held[k].p, held[k].p + at, bytes);
        FillStep(m, blocks, c, watched, m0, blocks0, k, at, bytes);
      }
  }

  /** The request asks for a block that cannot be had. */
  ghost predicate Refused(heap: Heap, r: Request)
    requires |heap.caches| == 7
    reads heap.caches, heap.vms.Repr()
  {
    r.Ask? && Sendable(r.sz) && var l2 := SizeClass(r.sz + 4); (Small(l2) || Big(l2) || 28 < l2) && heap.Stops(l2)
  }

  /** Any run of requests, from any sound heap, also an empty one.  It is served up to its end, or up to the
      first request for a block that cannot be had.  The client's blocks are what it was given, all
      different, and hold what it last wrote into them; everybody else's blocks keep every byte. */
  method Serve(heap: Heap, requests: seq<Request>, ghost watched: set<nat>)
    returns (served: nat, held: seq<Loan>, ghost answers: seq<nat>)
    requires heap.Valid() && watched <= heap.blocks.Keys
    modifies heap, heap.caches, heap.ram, heap.vms.Repr()
    ensures served <= |requests| && |answers| == served && held == Knows(requests[..served], answers).held
    ensures served < |requests| ==> |heap.caches| == 7 && Refused(heap, requests[served])
    ensures served == |requests| ==>
              && heap.Valid() && Lent(held, heap.blocks, watched)
              && NotesHold(heap.ram.bytes, Knows(requests, answers))
              && Untouched(old(heap.ram.bytes), heap.ram.bytes, old(heap.blocks), heap.blocks, watched)
  {
    hide Heap.Valid, Lent, NotesHold, Untouched, After, Refused;
    served, held, answers := 0, [], [];
    ghost var m0, blocks0 := heap.ram.bytes, heap.blocks;
    StartGoing(m0, blocks0, watched);
    while served < |requests|
      invariant served <= |requests| && |answers| == served && heap.Valid()
      invariant held == Knows(requests[..served], answers).held
      invariant Going(heap.ram.bytes, heap.blocks, Knows(requests[..served], answers), watched, m0, blocks0)
    {
      ghost var c := Knows(requests[..served], answers);
      ghost var answer;
      var ok, held';
      ok, held', answer := ServeOne(heap, requests[served], held, c, watched, m0, blocks0);
      if !ok {
        return;
      }
      KnowsMore(requests, served, answers, answer);
      served, held, answers := served + 1, held', answers + [answer];
    }
    assert requests[..served] == requests;
  }

  lemma {:induction false} KnowsMore(requests: seq<Request>, n: nat, answers: seq<nat>, answer: nat)
    requires n < |requests| && |answers| == n
    ensures Knows(requests[..n + 1], answers + [answer]) == After(Knows(requests[..n], answers), requests[n], answer)
  {
    assert requests[..n + 1][..n] == requests[..n] && (answers + [answer])[..n] == answers;
  }
}
