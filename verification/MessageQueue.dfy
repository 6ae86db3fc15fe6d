/** Message queues of rt-thread/src/ipc.c:1770-2446. Sending and receiving take two locked regions each: a
    node leaves one list in the first, is private to the thread while the message is copied, and joins the
    other list in the second. Every method is one region, or one copy. */
module MessageQueue {
  import opened Sequences
  import opened Chains
  import opened WaitList
  import opened Wakeup

  type Byte = b: int | 0 <= b < 256

  const LINK: nat := 8      // sizeof(struct rt_mq_message)

  // A message as it was sent; `urgent` by rt_mq_urgent
  datatype Letter = Letter(bytes: seq<Byte>, urgent: bool)

  // What happens to the messages, whatever the nodes do: one is linked, in front of all others if urgent, or the
  // first one is received, or dropped by a reset
  datatype Step = Link(l: Letter) | Receive | Drop

  // A message that has left the queue
  datatype Gone = Gone(letter: Letter, received: bool)

  function Linked(mail: seq<Letter>, l: Letter): seq<Letter> {
    if l.urgent then [l] + mail else mail + [l]
  }

  // The mail and what has left it after some steps from an empty queue
  function After(steps: seq<Step>): (seq<Letter>, seq<Gone>) {
    if steps == [] then ([], []) else OneMore(After(steps[..|steps| - 1]), steps[|steps| - 1])
  }

  function OneMore(state: (seq<Letter>, seq<Gone>), step: Step): (seq<Letter>, seq<Gone>) {
    var (mail, gone) := state;
    if step.Link? then (Linked(mail, step.l), gone)
    else if mail == [] then state
    else (mail[1..], gone + [Gone(mail[0], step.Receive?)])
  }

  function Letters(gone: seq<Gone>): (letters: seq<Letter>)
    ensures |letters| == |gone|
  {
    seq(|gone|, i requires 0 <= i < |gone| => gone[i].letter)
  }

  lemma LettersMore(gone: seq<Gone>, g: Gone)
    ensures Letters(gone + [g]) == Letters(gone) + [g.letter]
  {
  }

  function Normal(letters: seq<Letter>): seq<Letter> {
    if letters == [] then []
    else if letters[0].urgent then Normal(letters[1..])
    else [letters[0]] + Normal(letters[1..])
  }

  function Links(steps: seq<Step>): seq<Letter> {
    if steps == [] then []
    else Links(steps[..|steps| - 1]) + (if steps[|steps| - 1].Link? then [steps[|steps| - 1].l] else [])
  }

  lemma {:induction false} NormalCat(a: seq<Letter>, b: seq<Letter>)
    ensures Normal(a + b) == Normal(a) + Normal(b)
  {
    if a == [] {
      assert a + b == b;
    } else {
      NormalCat(a[1..], b);
      assert (a + b)[1..] == a[1..] + b;
      assert a[0].urgent || Normal(a + b) == [a[0]] + (Normal(a[1..]) + Normal(b));
    }
  }

  lemma NormalOne(l: Letter)
    ensures Normal([l]) == if l.urgent then [] else [l]
  {
    assert [l][1..] == [];
  }

  lemma NormalLink(got: seq<Letter>, mail: seq<Letter>, links: seq<Letter>, l: Letter)
    requires Normal(got) + Normal(mail) == Normal(links)
    ensures Normal(got) + Normal(Linked(mail, l)) == Normal(links + [l])
  {
    NormalOne(l);
    NormalCat(links, [l]);
    NormalCat([l], mail);
    NormalCat(mail, [l]);
    hide Normal;
    if l.urgent {
      assert [] + Normal(mail) == Normal(mail) && Normal(links) + [] == Normal(links);
    } else {
      assert Normal(got) + (Normal(mail) + [l]) == (Normal(got) + Normal(mail)) + [l];
    }
  }

  lemma NormalReceive(got: seq<Letter>, mail: seq<Letter>)
    requires mail != []
    ensures Normal(got + [mail[0]]) + Normal(mail[1..]) == Normal(got) + Normal(mail)
  {
    hide Normal;
    assert mail == [mail[0]] + mail[1..];
    NormalCat([mail[0]], mail[1..]);
    NormalCat(got, [mail[0]]);
    assert Normal(got) + (Normal([mail[0]]) + Normal(mail[1..])) == (Normal(got) + Normal([mail[0]])) +
        Normal(mail[1..]);
  }

  /** Normal messages leave the queue, received or dropped, in the order they were linked, each at most once and none
      skipped. */
  lemma {:induction false} NormalOrder(steps: seq<Step>)
    ensures Normal(Letters(After(steps).1)) + Normal(After(steps).0) == Normal(Links(steps))
  {
    hide Normal, Letters;
    if steps == [] {
      EmptyNormal();
    } else {
      var before, step := steps[..|steps| - 1], steps[|steps| - 1];
      var (mail, gone) := After(before);
      NormalOrder(before);
      if step.Link? {
        NormalLink(Letters(gone), mail, Links(before), step.l);
      } else {
        assert Links(before) + [] == Links(before);
        if mail != [] {
          NormalReceive(Letters(gone), mail);
          LettersMore(gone, Gone(mail[0], step.Receive?));
        }
      }
    }
  }

  lemma EmptyNormal()
    ensures Normal([]) == [] && Letters([]) == []
  {
  }

  /** Every linked message, urgent or not, is in the queue or has left it, and not more often than linked. */
  lemma {:induction false} NothingLost(steps: seq<Step>)
    ensures multiset(Letters(After(steps).1)) + multiset(After(steps).0) == multiset(Links(steps))
  {
    if steps != [] {
      var before, step := steps[..|steps| - 1], steps[|steps| - 1];
      var (mail, gone) := After(before);
      NothingLost(before);
      if !step.Link? {
        assert Links(before) + [] == Links(before);
        if mail != [] {
          LettersMore(gone, Gone(mail[0], step.Receive?));
          hide Letters;
          assert mail == [mail[0]] + mail[1..];
        }
      }
    }
  }

  ghost predicate UrgentAhead(mail: seq<Letter>) {
    forall i, j :: 0 <= i < j < |mail| && mail[j].urgent ==> mail[i].urgent
  }

  /** Urgent messages are always in front of normal ones. */
  lemma {:induction false} UrgentFirst(steps: seq<Step>)
    ensures UrgentAhead(After(steps).0)
  {
    if steps != [] {
      UrgentFirst(steps[..|steps| - 1]);
    }
  }

  // What has happened so far, and the messages that have left the queue, in this order
  datatype Past = Past(steps: seq<Step>, gone: seq<Gone>)

  // The queue got where it is by these steps
  ghost predicate Ran(past: Past, mail: seq<Letter>) {
    After(past.steps) == (mail, past.gone)
  }

  function LinkedTo(past: Past, l: Letter): Past {
    Past(past.steps + [Link(l)], past.gone)
  }

  function LeftBy(past: Past, l: Letter, received: bool): Past {
    Past(past.steps + [if received then Receive else Drop], past.gone + [Gone(l, received)])
  }

  lemma RanLink(past: Past, mail: seq<Letter>, l: Letter)
    requires Ran(past, mail)
    ensures Ran(LinkedTo(past, l), Linked(mail, l))
  {
    AfterMore(past.steps, Link(l));
  }

  lemma RanLeave(past: Past, mail: seq<Letter>, received: bool)
    requires Ran(past, mail) && mail != []
    ensures Ran(LeftBy(past, mail[0], received), mail[1..])
  {
    AfterMore(past.steps, if received then Receive else Drop);
  }

  lemma AfterMore(steps: seq<Step>, step: Step)
    ensures After(steps + [step]) == OneMore(After(steps), step)
  {
    assert (steps + [step])[..|steps|] == steps;
  }

  /** An urgent message is the next one received, in front of all that wait. */
  lemma UrgentNext(steps: seq<Step>, l: Letter)
    requires l.urgent
    ensures After(steps + [Link(l)] + [Receive]) == (After(steps).0, After(steps).1 + [Gone(l, true)])
  {
    AfterMore(steps, Link(l));
    AfterMore(steps + [Link(l)], Receive);
  }

  // A reset drops the mail, first to last
  function DroppedAll(past: Past, mail: seq<Letter>): Past
    decreases |mail|
  {
    if mail == [] then past else DroppedAll(LeftBy(past, mail[0], false), mail[1..])
  }

  // ---- the pool of nodes ----

  datatype Place = IsFree | IsQueued | IsHeld(t: Tid)

  // A node between two regions of thread t's call: to be filled, to be linked, or to be read and given back
  datatype Hold = Empty(node: nat, urgent: bool) | Filled(node: nat, letter: Letter) | Leaving(node: nat,
      letter: Letter)

  /** Every node of the pool is in exactly one place: free, queued, or private to one thread. */
  ghost predicate Nodes(place: map<nat, Place>, queue: seq<nat>, spare: seq<nat>, holds: map<Tid, Hold>) {
    && Distinct(queue) && Distinct(spare) && 0 !in place
    && (forall b :: b in queue <==> b in place && place[b] == IsQueued)
    && (forall b :: b in spare <==> b in place && place[b] == IsFree)
    && (forall t :: t in holds ==> holds[t].node in place && place[holds[t].node] == IsHeld(t))
    && (forall b :: b in place && place[b].IsHeld? ==> place[b].t in holds && holds[place[b].t].node == b)
  }

  ghost predicate Lists(next: map<nat, nat>, head: nat, tail: nat, free: nat, queue: seq<nat>, spare: seq<nat>) {
    Chain(next, head, queue) && Chain(next, free, spare) && tail == if queue == [] then 0 else queue[|queue| - 1]
  }

  // The slot begins with the message
  ghost predicate Carries(slot: seq<Byte>, l: Letter) {
    |l.bytes| <= |slot| && slot[..|l.bytes|] == l.bytes
  }

  ghost predicate Held(next: map<nat, nat>, payload: map<nat, seq<Byte>>, h: Hold) {
    && (!h.Empty? ==> h.node in payload && Carries(payload[h.node], h.letter))
    && (h.Filled? && !h.letter.urgent ==> h.node in next && next[h.node] == 0)
  }

  ghost predicate Contents(next: map<nat, nat>, payload: map<nat, seq<Byte>>, queue: seq<nat>, mail: seq<Letter>,
      holds: map<Tid, Hold>) {
    && |mail| == |queue|
    && (forall i :: 0 <= i < |queue| ==> queue[i] in payload && Carries(payload[queue[i]], mail[i]))
    && (forall t :: t in holds ==> Held(next, payload, holds[t]))
  }

  ghost predicate Slots(place: map<nat, Place>, payload: map<nat, seq<Byte>>, size: nat) {
    forall b :: b in place ==> b in payload && |payload[b]| == size
  }

  // -- a node leaves the free list --

  lemma PopNodes(place: map<nat, Place>, queue: seq<nat>, spare: seq<nat>, holds: map<Tid, Hold>, t: Tid, h: Hold)
    requires Nodes(place, queue, spare, holds) && spare != [] && t !in holds && h.node == spare[0]
    ensures Nodes(place[spare[0] := IsHeld(t)], queue, spare[1..], holds[t := h])
  {
    assert spare == [spare[0]] + spare[1..];
    assert spare[0] in spare;
  }

  lemma PopContents(next: map<nat, nat>, payload: map<nat, seq<Byte>>, queue: seq<nat>, mail: seq<Letter>,
      holds: map<Tid, Hold>, t: Tid, h: Hold)
    requires Contents(next, payload, queue, mail, holds) && h.Empty?
    ensures Contents(next, payload, queue, mail, holds[t := h])
  {
  }

  // -- a private node is filled --

  function Overwrite(slot: seq<Byte>, bytes: seq<Byte>): seq<Byte>
    requires |bytes| <= |slot|
  {
    bytes + slot[|bytes|..]
  }

  lemma FillOk(place: map<nat, Place>, next: map<nat, nat>, head: nat, tail: nat, free: nat,
      payload: map<nat, seq<Byte>>,
               queue: seq<nat>, spare: seq<nat>, mail: seq<Letter>, holds: map<Tid, Hold>, size: nat, t: Tid,
                   bytes: seq<Byte>, next': map<nat, nat>)
    requires Nodes(place, queue, spare, holds) && Lists(next, head, tail, free, queue, spare) &&
        Slots(place, payload, size)
    requires Contents(next, payload, queue, mail, holds) && t in holds && holds[t].Empty? && |bytes| <= size
    requires next' == if holds[t].urgent then next else next[holds[t].node := 0]
    ensures var b := holds[t].node;
            && b in payload && |bytes| <= |payload[b]|
            && (var payload', holds' := payload[b := Overwrite(payload[b], bytes)],
                holds[t := Filled(b, Letter(bytes, holds[t].urgent))];
                && Nodes(place, queue, spare, holds') && Lists(next', head, tail, free, queue, spare)
                && Slots(place, payload', size) && Contents(next', payload', queue, mail, holds'))
  {
    var b := holds[t].node;
    assert b !in queue && b !in spare;
    ChainFrame(next, next', head, queue);
    ChainFrame(next, next', free, spare);
    hide Chain;
    FillContents(place, next, payload, queue, spare, mail, holds, t, bytes, next');
  }

  lemma FillContents(place: map<nat, Place>, next: map<nat, nat>, payload: map<nat, seq<Byte>>, queue: seq<nat>,
      spare: seq<nat>,
                     mail: seq<Letter>, holds: map<Tid, Hold>, t: Tid, bytes: seq<Byte>, next': map<nat, nat>)
    requires Nodes(place, queue, spare, holds) && Contents(next, payload, queue, mail, holds)
    requires t in holds && holds[t].Empty? && holds[t].node in payload && |bytes| <= |payload[holds[t].node]|
    requires next' == if holds[t].urgent then next else next[holds[t].node := 0]
    ensures var b := holds[t].node;
            Contents(next', payload[b := Overwrite(payload[b], bytes)], queue, mail,
                holds[t := Filled(b, Letter(bytes, holds[t].urgent))])
  {
    var b := holds[t].node;
    var payload', holds' := payload[b := Overwrite(payload[b], bytes)],
        holds[t := Filled(b, Letter(bytes, holds[t].urgent))];
    forall i | 0 <= i < |queue|
      ensures queue[i] in payload' && Carries(payload'[queue[i]], mail[i])
    {
      assert queue[i] in queue;
    }
    forall x | x in holds'
      ensures Held(next', payload', holds'[x])
    {
      if x != t {
        assert Held(next, payload, holds[x]);
        assert place[holds[x].node] == IsHeld(x) && place[b] == IsHeld(t);
      }
    }
  }

  // -- a filled node joins the queue --

  lemma LinkNodes(place: map<nat, Place>, queue: seq<nat>, spare: seq<nat>, holds: map<Tid, Hold>, t: Tid,
      queue': seq<nat>)
    requires Nodes(place, queue, spare, holds) && t in holds
    requires queue' == queue + [holds[t].node] || queue' == [holds[t].node] + queue
    ensures Nodes(place[holds[t].node := IsQueued], queue', spare, holds - {t}) && holds[t].node !in queue &&
        holds[t].node !in spare
    ensures holds[t].node != 0
  {
    var b := holds[t].node;
    assert b !in queue;
    forall c
      ensures c in queue' <==> c == b || c in queue
    {
    }
    forall x | x in holds && x != t
      ensures holds[x].node != b
    {
      assert place[holds[x].node] == IsHeld(x);
    }
  }

  lemma LinkContents(next: map<nat, nat>, next': map<nat, nat>, payload: map<nat, seq<Byte>>, queue: seq<nat>,
      mail: seq<Letter>, holds: map<Tid, Hold>, t: Tid,
                     place: map<nat, Place>, spare: seq<nat>, queue': seq<nat>)
    requires Contents(next, payload, queue, mail, holds) && Nodes(place, queue, spare, holds) && t in holds &&
        holds[t].Filled?
    requires queue' == if holds[t].letter.urgent then [holds[t].node] + queue else queue + [holds[t].node]
    requires forall b :: b in next && b !in queue && b != holds[t].node ==> b in next' && next'[b] == next[b]
    ensures Contents(next', payload, queue', Linked(mail, holds[t].letter), holds - {t})
  {
    assert Held(next, payload, holds[t]);
    forall x | x in holds - {t}
      ensures Held(next', payload, holds[x])
    {
      assert Held(next, payload, holds[x]);
      assert place[holds[x].node] == IsHeld(x) && place[holds[t].node] == IsHeld(t);
    }
  }

  lemma LinkTail(next: map<nat, nat>, head: nat, tail: nat, free: nat, queue: seq<nat>, spare: seq<nat>, b: nat)
    requires Lists(next, head, tail, free, queue, spare) && Distinct(queue) && Distinct(spare)
    requires b !in queue && b !in spare && b != 0 && b in next && next[b] == 0
    requires forall c :: c in queue ==> c !in spare
    ensures Lists(if tail == 0 then next else next[tail := b], if head == 0 then b else head, b, free, queue + [b],
        spare)
    ensures tail == 0 <==> queue == []
    ensures tail != 0 ==> tail in queue
  {
    if queue == [] {
      assert [] + [b] == [b] && [b][1..] == [];
      assert Chain(next, 0, []);
      assert Chain(next, b, [b]);
    } else {
      assert tail in queue;
      LastNotNull(next, head, queue);
      ChainSnoc(next, head, queue, b);
      ChainFrame(next, next[tail := b], free, spare);
    }
  }

  lemma {:induction false} LastNotNull(next: map<nat, nat>, first: nat, nodes: seq<nat>)
    requires Chain(next, first, nodes)
    ensures 0 !in nodes
    decreases |nodes|
  {
    if nodes != [] {
      LastNotNull(next, next[first], nodes[1..]);
      assert nodes == [nodes[0]] + nodes[1..];
    }
  }

  lemma LinkHead(next: map<nat, nat>, head: nat, tail: nat, free: nat, queue: seq<nat>, spare: seq<nat>, b: nat)
    requires Lists(next, head, tail, free, queue, spare) && Distinct(queue) && Distinct(spare)
    requires b !in queue && b !in spare && b != 0
    ensures Lists(next[b := head], b, if tail == 0 then b else tail, free, [b] + queue, spare)
  {
    ChainPush(next, head, queue, b);
    ChainFrame(next, next[b := head], free, spare);
    LastNotNull(next, head, queue);
    hide Chain;
    assert queue != [] ==> tail in queue;
  }

  // -- the first node leaves the queue --

  lemma TakeNodes(place: map<nat, Place>, queue: seq<nat>, spare: seq<nat>, holds: map<Tid, Hold>, t: Tid, h: Hold)
    requires Nodes(place, queue, spare, holds) && queue != [] && t !in holds && h.node == queue[0]
    ensures Nodes(place[queue[0] := IsHeld(t)], queue[1..], spare, holds[t := h])
  {
    assert queue == [queue[0]] + queue[1..];
    assert queue[0] in queue;
  }

  lemma TakeContents(next: map<nat, nat>, payload: map<nat, seq<Byte>>, queue: seq<nat>, mail: seq<Letter>,
      holds: map<Tid, Hold>, t: Tid)
    requires Contents(next, payload, queue, mail, holds) && queue != []
    ensures mail != [] && Contents(next, payload, queue[1..], mail[1..], holds[t := Leaving(queue[0], mail[0])])
  {
    hide Carries;
  }

  lemma TakeLists(next: map<nat, nat>, head: nat, tail: nat, free: nat, queue: seq<nat>, spare: seq<nat>)
    requires Lists(next, head, tail, free, queue, spare) && Distinct(queue) && queue != []
    ensures head == queue[0] && head in next
    ensures Lists(next, next[head], if tail == head then 0 else tail, free, queue[1..], spare)
  {
    ChainPop(next, head, queue);
    hide Chain;
  }

  // -- a node goes back to the free list --

  lemma BackNodes(place: map<nat, Place>, queue: seq<nat>, spare: seq<nat>, holds: map<Tid, Hold>, t: Tid)
    requires Nodes(place, queue, spare, holds) && t in holds
    ensures Nodes(place[holds[t].node := IsFree], queue, [holds[t].node] + spare, holds - {t})
    ensures holds[t].node !in queue && holds[t].node !in spare && holds[t].node != 0
  {
    var b := holds[t].node;
    assert b !in spare;
    forall x | x in holds && x != t
      ensures holds[x].node != b
    {
      assert place[holds[x].node] == IsHeld(x);
    }
  }

  lemma BackContents(next: map<nat, nat>, payload: map<nat, seq<Byte>>, queue: seq<nat>, mail: seq<Letter>,
      holds: map<Tid, Hold>, t: Tid,
                     place: map<nat, Place>, spare: seq<nat>, n: nat)
    requires Contents(next, payload, queue, mail, holds) && Nodes(place, queue, spare, holds) && t in holds
    ensures Contents(next[holds[t].node := n], payload, queue, mail, holds - {t})
  {
    hide Carries;
    forall x | x in holds - {t}
      ensures Held(next[holds[t].node := n], payload, holds[x])
    {
      assert Held(next, payload, holds[x]);
      assert place[holds[x].node] == IsHeld(x) && place[holds[t].node] == IsHeld(t);
    }
  }

  lemma BackLists(next: map<nat, nat>, head: nat, tail: nat, free: nat, queue: seq<nat>, spare: seq<nat>, b: nat)
    requires Lists(next, head, tail, free, queue, spare) && Distinct(spare) && b !in queue && b !in spare && b != 0
    ensures Lists(next[b := free], head, tail, b, queue, [b] + spare)
  {
    ChainPush(next, free, spare, b);
    ChainFrame(next, next[b := free], head, queue);
  }

  ghost predicate Pool(place: map<nat, Place>, next: map<nat, nat>, head: nat, tail: nat, free: nat, entry: nat,
                       payload: map<nat, seq<Byte>>, size: nat,
                       queue: seq<nat>, spare: seq<nat>, mail: seq<Letter>, holds: map<Tid, Hold>) {
    && Nodes(place, queue, spare, holds) && Lists(next, head, tail, free, queue, spare) && Slots(place, payload, size)
    && Contents(next, payload, queue, mail, holds) && entry == |queue|
  }

  lemma AppendOk(place: map<nat, Place>, next: map<nat, nat>, head: nat, tail: nat, free: nat, entry: nat,
      payload: map<nat, seq<Byte>>, size: nat,
                 queue: seq<nat>, spare: seq<nat>, mail: seq<Letter>, holds: map<Tid, Hold>, t: Tid)
    requires Pool(place, next, head, tail, free, entry, payload, size, queue, spare, mail, holds)
    requires t in holds && holds[t].Filled? && !holds[t].letter.urgent
    ensures var b := holds[t].node;
            Pool(place[b := IsQueued], if tail == 0 then next else next[tail := b], if head == 0 then b else head, b,
                free, entry + 1, payload, size,
                 queue + [b], spare, mail + [holds[t].letter], holds - {t})
  {
    hide Chain, Nodes, Contents, Lists, Slots, Held;
    var b := holds[t].node;
    HeldNext(next, payload, queue, mail, holds, t);
    Apart(place, queue, spare, holds);
    LinkNodes(place, queue, spare, holds, t, queue + [b]);
    LinkTail(next, head, tail, free, queue, spare, b);
    LinkContents(next, if tail == 0 then next else next[tail := b], payload, queue, mail, holds, t, place, spare,
        queue + [b]);
    LinkSlots(place, payload, size, b, IsQueued);
  }

  lemma PrependOk(place: map<nat, Place>, next: map<nat, nat>, head: nat, tail: nat, free: nat, entry: nat,
      payload: map<nat, seq<Byte>>, size: nat,
                  queue: seq<nat>, spare: seq<nat>, mail: seq<Letter>, holds: map<Tid, Hold>, t: Tid)
    requires Pool(place, next, head, tail, free, entry, payload, size, queue, spare, mail, holds)
    requires t in holds && holds[t].Filled? && holds[t].letter.urgent
    ensures var b := holds[t].node;
            Pool(place[b := IsQueued], next[b := head], b, if tail == 0 then b else tail, free, entry + 1, payload,
                size,
                 [b] + queue, spare, [holds[t].letter] + mail, holds - {t})
  {
    hide Chain, Nodes, Contents, Lists, Slots, Held;
    var b := holds[t].node;
    Apart(place, queue, spare, holds);
    LinkNodes(place, queue, spare, holds, t, [b] + queue);
    LinkHead(next, head, tail, free, queue, spare, b);
    LinkContents(next, next[b := head], payload, queue, mail, holds, t, place, spare, [b] + queue);
    LinkSlots(place, payload, size, b, IsQueued);
  }

  class MessageQueue {
    const flag: Flag
    const msg_size: nat
    var next: map<nat, nat>               // the links in the nodes
    var payload: map<nat, seq<Byte>>      // the bytes behind them
    var head: nat                         // msg_queue_head, msg_queue_tail, msg_queue_free
    var tail: nat
    var free: nat
    var entry: nat
    var receivers: seq<Tid>
    var senders: seq<Tid>
    var error: map<Tid, Err>
    ghost var place: map<nat, Place>
    ghost var queue: seq<nat>
    ghost var spare: seq<nat>
    ghost var mail: seq<Letter>
    ghost var holds: map<Tid, Hold>
    ghost var receiving: set<Tid>
    ghost var sending: set<Tid>
    ghost var failed: set<Tid>
    ghost var past: Past

    ghost predicate Valid()
      reads this
    {
      && Ran(past, mail)
      && Pool(place, next, head, tail, free, entry, payload, msg_size, queue, spare, mail, holds)
      && Waiters(receivers, receiving, entry, senders, sending, |spare|, failed, error)
    }

    // In no call on this queue
    ghost predicate Outside(t: Tid)
      reads this
    {
      Away(t, receivers, receiving) && Away(t, senders, sending) && t !in failed && t !in holds
    }

    /** `entry` is the length of the queue; a sleeping receiver has a woken one for every message, and a
        sleeping sender one for every free node. */
    lemma NothingMissed()
      requires Valid()
      ensures entry == |queue| == |mail|
      ensures receivers != [] ==> entry <= |receiving|
      ensures senders != [] ==> |spare| <= |sending|
    {
    }

    /** Over any run, with its resets: normal messages have left the queue in the order they were linked and the rest
        stands in it in that order; every linked message is in the queue or has left it once; urgent ones are ahead. */
    lemma Delivered()
      requires Valid()
      ensures Normal(Letters(past.gone)) + Normal(mail) == Normal(Links(past.steps))
      ensures multiset(Letters(past.gone)) + multiset(mail) == multiset(Links(past.steps))
      ensures UrgentAhead(mail)
    {
      NormalOrder(past.steps);
      NothingLost(past.steps);
      UrgentFirst(past.steps);
    }

    /** rt_mq_init: every node is free. */
    constructor (f: Flag, pool: nat, msg_bytes: nat, pool_size: nat)
      requires pool > 0
      ensures Valid() && mail == [] && holds == map[] && receivers == senders == [] && flag == f && past == Past([], [])
      ensures receiving == sending == failed == {} && msg_size == (msg_bytes + 7) / 8 * 8
      ensures |spare| == pool_size / (msg_size + LINK)
    {
      hide Chain, Distinct;
      var size := (msg_bytes + 7) / 8 * 8;
      var links, first, slots, nodes := FreeList(pool, size, pool_size / (size + LINK));
      flag, msg_size, next, payload := f, size, links, slots;
      head, tail, free, entry := 0, 0, first, 0;
      receivers, senders, error := [], [], map[];
      place, queue, spare, mail, holds := (map b | b in nodes :: IsFree), [], nodes, [], map[];
      receiving, sending, failed, past := {}, {}, {}, Past([], []);
      new;
      EmptyChain(links);
    }

    // ---- the first region of rt_mq_send_wait and rt_mq_urgent ----

    // The first free node becomes private
    method Unlink(t: Tid, urgent: bool)
      requires Pool(place, next, head, tail, free, entry, payload, msg_size, queue, spare, mail, holds)
      requires spare != [] && t !in holds
      modifies `free, `place, `spare, `holds
      ensures Pool(place, next, head, tail, free, entry, payload, msg_size, queue, spare, mail, holds)
      ensures spare == old(spare)[1..] && holds == old(holds)[t := Empty(old(spare)[0], urgent)]
    {
      hide Chain, Nodes, Contents, Lists, Slots;
      ghost var h := Empty(spare[0], urgent);
      PopNodes(place, queue, spare, holds, t, h);
      PopContents(next, payload, queue, mail, holds, t, h);
      PopLists(place, next, head, tail, free, queue, spare, holds);
      PopSlots(place, payload, msg_size, spare[0], t, queue, spare, holds);
      free := next[free];
      place, spare, holds := place[spare[0] := IsHeld(t)], spare[1..], holds[t := h];
    }

    /** rt_mq_send_wait: a free node for the message, or sleep. */
    method SendStart(t: Tid, size: nat, timeout: int, again: bool, prio: map<Tid, nat>) returns (o: Outcome)
      requires Valid() && t !in holds && (if again then t in sending else Outside(t)) && t in prio &&
          Known(senders, prio)
      requires size > 0 && (again ==> size <= msg_size)
      modifies this
      ensures Valid() && mail == old(mail) && sending == old(sending) - {t} && failed == old(failed)
      ensures receivers == old(receivers) && receiving == old(receiving)
      ensures past == old(past)
      ensures size > msg_size ==> o == Failed(ERROR) && holds == old(holds) && senders == old(senders)
      ensures size <= msg_size && old(spare) != [] ==>
                o == Finished && senders == old(senders) && holds == old(holds)[t := Empty(old(spare)[0], false)]
      ensures size <= msg_size && old(spare) == [] ==>
                && o == (if timeout == 0 then Failed(EFULL) else Waits) && holds == old(holds)
                && (if o == Waits then Joined(old(senders), senders, t, flag, prio) else senders == old(senders))
    {
      hide Ran, Pool, Waiters, Linked, LinkedTo, LeftBy;
      Places(t);
      FreeIsNull(place, next, head, tail, free, entry, payload, msg_size, queue, spare, mail, holds);
      if size > msg_size {
        return Failed(ERROR);
      }
      if free == 0 {
        o := NoNode(t, timeout, again, prio);
        return;
      }
      TakeOne(receivers, receiving, entry, senders, sending, |spare|, failed, error, t);
      Unlink(t, false);
      sending := sending - {t};
      o := Finished;
    }

    // No node is free
    method NoNode(t: Tid, timeout: int, again: bool, prio: map<Tid, nat>) returns (o: Outcome)
      requires Valid() && t !in holds && (if again then t in sending else Outside(t)) && t in prio &&
          Known(senders, prio) && spare == []
      modifies `error, `senders, `sending
      ensures Valid() && sending == old(sending) - {t} && o == (if timeout == 0 then Failed(EFULL) else Waits)
      ensures if o == Waits then Joined(old(senders), senders, t, flag, prio) else senders == old(senders)
    {
      hide Ran, Pool, Waiters, Linked, LinkedTo, LeftBy;
      Places(t);
      if timeout == 0 {
        if again {
          GiveUp(receivers, receiving, entry, senders, sending, failed, error, t, EOK);
          error, sending := error[t := EOK], sending - {t};
        }
        return Failed(EFULL);
      }
      var list, k := Enqueue(senders, t, flag, prio);
      Sleep(receivers, receiving, entry, senders, sending, failed, error, list, k, t);
      error, sending := error[t := EOK], sending - {t};
      senders := list;
      o := Waits;
    }

    /** rt_mq_urgent never sleeps. */
    method UrgentStart(t: Tid, size: nat) returns (o: Outcome)
      requires Valid() && Outside(t) && size > 0
      modifies this
      ensures Valid() && mail == old(mail) && sending == old(sending) && receiving == old(receiving)
      ensures receivers == old(receivers) && senders == old(senders) && failed == old(failed)
      ensures past == old(past)
      ensures o == if size > msg_size then Failed(ERROR) else if old(spare) == [] then Failed(EFULL) else Finished
      ensures holds == if o == Finished then old(holds)[t := Empty(old(spare)[0], true)] else old(holds)
    {
      hide Ran, Pool, Waiters, Linked, LinkedTo, LeftBy;
      Places(t);
      FreeIsNull(place, next, head, tail, free, entry, payload, msg_size, queue, spare, mail, holds);
      if size > msg_size {
        return Failed(ERROR);
      }
      if free == 0 {
        return Failed(EFULL);
      }
      TakeOne(receivers, receiving, entry, senders, sending, |spare|, failed, error, t);
      assert sending - {t} == sending;
      Unlink(t, true);
      o := Finished;
    }

    // ---- between the regions ----

    /** The message is copied into the private node; no list is touched. */
    method Fill(t: Tid, b: nat, bytes: seq<Byte>, urgent: bool)
      requires Valid() && t in holds && holds[t] == Empty(b, urgent) && |bytes| <= msg_size
      modifies `next, `payload, `holds
      ensures Valid() && holds == old(holds)[t := Filled(b, Letter(bytes, urgent))]
    {
      hide Nodes, Lists, Contents, Slots, Waiters, Chain;
      var next' := if urgent then next else next[b := 0];
      FillOk(place, next, head, tail, free, payload, queue, spare, mail, holds, msg_size, t, bytes, next');
      next := next';
      payload := payload[b := Overwrite(payload[b], bytes)];
      holds := holds[t := Filled(b, Letter(bytes, urgent))];
    }

    // ---- the second region of sending ----

    // msg behind the tail
    method Append(t: Tid, b: nat)
      requires Pool(place, next, head, tail, free, entry, payload, msg_size, queue, spare, mail, holds)
      requires t in holds && holds[t].Filled? && !holds[t].letter.urgent && holds[t].node == b
      modifies `next, `head, `tail, `entry, `place, `queue, `mail, `holds
      ensures Pool(place, next, head, tail, free, entry, payload, msg_size, queue, spare, mail, holds)
      ensures entry == old(entry) + 1 && mail == old(mail) + [old(holds)[t].letter] && holds == old(holds) - {t}
    {
      hide *;
      AppendOk(place, next, head, tail, free, entry, payload, msg_size, queue, spare, mail, holds, t);
      if tail != 0 {
        next := next[tail := b];
      }
      tail := b;
      if head == 0 {
        head := b;
      }
      entry := entry + 1;
      mail := mail + [holds[t].letter];
      place, queue, holds := place[b := IsQueued], queue + [b], holds - {t};
    }

    // msg in front of the head
    method Prepend(t: Tid, b: nat)
      requires Pool(place, next, head, tail, free, entry, payload, msg_size, queue, spare, mail, holds)
      requires t in holds && holds[t].Filled? && holds[t].letter.urgent && holds[t].node == b
      modifies `next, `head, `tail, `entry, `place, `queue, `mail, `holds
      ensures Pool(place, next, head, tail, free, entry, payload, msg_size, queue, spare, mail, holds)
      ensures entry == old(entry) + 1 && mail == [old(holds)[t].letter] + old(mail) && holds == old(holds) - {t}
    {
      hide *;
      PrependOk(place, next, head, tail, free, entry, payload, msg_size, queue, spare, mail, holds, t);
      next := next[b := head];
      head := b;
      if tail == 0 {
        tail := b;
      }
      entry := entry + 1;
      mail := [holds[t].letter] + mail;
      place, queue, holds := place[b := IsQueued], [b] + queue, holds - {t};
    }

    method LinkNode(t: Tid, b: nat, urgent: bool)
      requires Pool(place, next, head, tail, free, entry, payload, msg_size, queue, spare, mail, holds)
      requires t in holds && holds[t].Filled? && holds[t].letter.urgent == urgent && holds[t].node == b
      modifies `next, `head, `tail, `entry, `place, `queue, `mail, `holds
      ensures Pool(place, next, head, tail, free, entry, payload, msg_size, queue, spare, mail, holds)
      ensures entry == old(entry) + 1 && mail == Linked(old(mail), old(holds)[t].letter) && holds == old(holds) - {t}
    {
      hide Pool;
      if urgent {
        Prepend(t, b);
      } else {
        Append(t, b);
      }
    }

    /** The filled node joins the queue, at the end or, if urgent, in front, and a receiver is woken. */
    method Link(t: Tid, b: nat, urgent: bool)
      requires Valid() && t in holds && holds[t].Filled? && holds[t].letter.urgent == urgent && holds[t].node == b
      modifies this
      ensures Valid() && mail == Linked(old(mail), old(holds)[t].letter) && holds == old(holds) - {t} &&
          spare == old(spare)
      ensures receivers == Rest(old(receivers)) && receiving == Up(old(receivers), old(receiving))
      ensures senders == old(senders) && sending == old(sending) && failed == old(failed)
      ensures past == LinkedTo(old(past), old(holds)[t].letter)
    {
      hide Ran, Pool, Waiters, Linked, LinkedTo, Rest, Up;
      WakeOne(receivers, receiving, entry, senders, sending, |spare|, failed, error);
      RanLink(past, mail, holds[t].letter);
      past := LinkedTo(past, holds[t].letter);
      LinkNode(t, b, urgent);
      WakeReceiver();
    }

    // rt_ipc_list_resume on the receivers, if there are any
    method WakeReceiver()
      modifies `receivers, `receiving
      ensures receivers == Rest(old(receivers)) && receiving == Up(old(receivers), old(receiving))
    {
      receiving := Up(receivers, receiving);
      if receivers != [] {
        receivers := receivers[1..];
      }
    }

    // ---- receiving ----

    // The first message leaves the queue
    method Dequeue(t: Tid)
      requires Pool(place, next, head, tail, free, entry, payload, msg_size, queue, spare, mail, holds)
      requires queue != [] && t !in holds
      modifies `head, `tail, `entry, `place, `queue, `mail, `holds
      ensures Pool(place, next, head, tail, free, entry, payload, msg_size, queue, spare, mail, holds)
      ensures entry == old(entry) - 1 && old(mail) != [] && mail == old(mail)[1..] && |queue| == |old(queue)| - 1
      ensures holds == old(holds)[t := Leaving(old(queue)[0], old(mail)[0])] && old(head) == old(queue)[0]
    {
      hide Chain, Nodes, Contents, Lists, Slots;
      Apart(place, queue, spare, holds);
      TakeContents(next, payload, queue, mail, holds, t);
      TakeNodes(place, queue, spare, holds, t, Leaving(queue[0], mail[0]));
      TakeLists(next, head, tail, free, queue, spare);
      LinkSlots(place, payload, msg_size, queue[0], IsHeld(t));
      var msg := head;
      head := next[msg];
      if tail == msg {
        tail := 0;
      }
      entry := entry - 1;
      holds := holds[t := Leaving(queue[0], mail[0])];
      place, queue, mail := place[queue[0] := IsHeld(t)], queue[1..], mail[1..];
    }

    // The queue is empty
    method NoMessage(t: Tid, timeout: int, again: bool, prio: map<Tid, nat>) returns (o: Outcome)
      requires Valid() && t !in holds && (if again then t in receiving else Outside(t)) && t in prio &&
          Known(receivers, prio) && entry == 0
      modifies `error, `receivers, `receiving
      ensures Valid() && receiving == old(receiving) - {t} && o == (if timeout == 0 then Failed(ETIMEOUT) else Waits)
      ensures if o == Waits then Joined(old(receivers), receivers, t, flag, prio) else receivers == old(receivers)
    {
      hide Ran, Pool, Waiters, Linked, LinkedTo, LeftBy;
      Places(t);
      Swap(receivers, receiving, entry, senders, sending, |spare|, failed, error);
      if timeout == 0 {
        if again {
          GiveUp(senders, sending, |spare|, receivers, receiving, failed, error, t, ETIMEOUT);
          error, receiving := error[t := ETIMEOUT], receiving - {t};
          Swap(senders, sending, |spare|, receivers, receiving, 0, failed, error);
        }
        return Failed(ETIMEOUT);
      }
      var list, k := Enqueue(receivers, t, flag, prio);
      Sleep(senders, sending, |spare|, receivers, receiving, failed, error, list, k, t);
      error, receiving := error[t := EOK], receiving - {t};
      receivers := list;
      Swap(senders, sending, |spare|, receivers, receiving, 0, failed, error);
      o := Waits;
    }

    /** rt_mq_recv: the first message leaves the queue, or the thread sleeps. */
    method RecvStart(t: Tid, timeout: int, again: bool, prio: map<Tid, nat>) returns (o: Outcome, b: nat)
      requires Valid() && t !in holds && (if again then t in receiving else Outside(t)) && t in prio &&
          Known(receivers, prio)
      modifies this
      ensures Valid() && receiving == old(receiving) - {t} && failed == old(failed)
      ensures senders == old(senders) && sending == old(sending) && spare == old(spare)
      ensures old(mail) != [] ==>
                && past == LeftBy(old(past), old(mail)[0], true)
                && o == Finished && mail == old(mail)[1..] && holds == old(holds)[t := Leaving(b, old(mail)[0])] &&
                    receivers == old(receivers)
      ensures old(mail) == [] ==>
                && o == (if timeout == 0 then Failed(ETIMEOUT) else Waits) && mail == [] && holds == old(holds)
                && past == old(past)
                && (if o == Waits then Joined(old(receivers), receivers, t, flag, prio)
                    else receivers == old(receivers))
    {
      hide Ran, Pool, Waiters, Linked, LinkedTo, LeftBy;
      Places(t);
      EntryCounts(place, next, head, tail, free, entry, payload, msg_size, queue, spare, mail, holds);
      b := 0;
      if entry == 0 {
        o := NoMessage(t, timeout, again, prio);
        return;
      }
      Swap(receivers, receiving, entry, senders, sending, |spare|, failed, error);
      TakeOne(senders, sending, |spare|, receivers, receiving, entry, failed, error, t);
      b := head;
      RanLeave(past, mail, true);
      past := LeftBy(past, mail[0], true);
      Dequeue(t);
      receiving := receiving - {t};
      Swap(senders, sending, |spare|, receivers, receiving, entry, failed, error);
      o := Finished;
    }

    /** The copy out of the private node: the message as it was sent, as far as the buffer goes. */
    method Read(t: Tid, b: nat, size: nat) returns (buffer: seq<Byte>)
      requires Valid() && t in holds && holds[t].Leaving? && holds[t].node == b && size > 0
      ensures |buffer| == if size > msg_size then msg_size else size
      ensures |holds[t].letter.bytes| <= msg_size
      ensures var l := holds[t].letter.bytes; if size < |l| then buffer == l[..size] else buffer[..|l|] == l
    {
      hide Waiters, Lists, Chain;
      ReadOk(place, next, payload, queue, spare, mail, holds, msg_size, t);
      buffer := payload[b][..if size > msg_size then msg_size else size];
    }

    // msg goes to the front of the free list
    method GiveBack(t: Tid, b: nat)
      requires Pool(place, next, head, tail, free, entry, payload, msg_size, queue, spare, mail, holds)
      requires t in holds && holds[t].node == b
      modifies `next, `free, `place, `spare, `holds
      ensures Pool(place, next, head, tail, free, entry, payload, msg_size, queue, spare, mail, holds)
      ensures spare == [b] + old(spare) && holds == old(holds) - {t}
    {
      hide Chain, Nodes, Contents, Lists, Slots, Held;
      Apart(place, queue, spare, holds);
      BackNodes(place, queue, spare, holds, t);
      BackContents(next, payload, queue, mail, holds, t, place, spare, free);
      BackLists(next, head, tail, free, queue, spare, b);
      LinkSlots(place, payload, msg_size, b, IsFree);
      next := next[b := free];
      free := b;
      place, spare, holds := place[b := IsFree], [b] + spare, holds - {t};
    }

    /** The second region of rt_mq_recv: the node is free again and a sender is woken. */
    method RecvFinish(t: Tid, b: nat)
      requires Valid() && t in holds && holds[t].Leaving? && holds[t].node == b
      modifies this
      ensures Valid() && mail == old(mail) && holds == old(holds) - {t} && spare == [b] + old(spare)
      ensures senders == Rest(old(senders)) && sending == Up(old(senders), old(sending))
      ensures receivers == old(receivers) && receiving == old(receiving) && failed == old(failed)
      ensures past == old(past)
    {
      hide Ran, Pool, Waiters, Linked, LinkedTo, LeftBy;
      Swap(receivers, receiving, entry, senders, sending, |spare|, failed, error);
      WakeOne(senders, sending, |spare|, receivers, receiving, entry, failed, error);
      GiveBack(t, b);
      sending := Up(senders, sending);
      if senders != [] {
        senders := senders[1..];
      }
      Swap(senders, sending, |spare|, receivers, receiving, entry, failed, error);
    }

    // ---- timeouts and reset ----

    lemma Places(t: Tid)
      requires Valid() && (Outside(t) || t in sending || t in receiving)
      ensures t in sending ==> t !in senders && Away(t, receivers, receiving) && t !in failed
      ensures t in receiving ==> t !in receivers && Away(t, senders, sending) && t !in failed
    {
    }

    /** The call of a thread that was resumed with an error returns that error. */
    method Return(t: Tid) returns (e: Err)
      requires Valid() && t in failed
      modifies `failed
      ensures Valid() && e != EOK && failed == old(failed) - {t}
    {
      hide Pool;
      Forget(receivers, receiving, entry, senders, sending, |spare|, failed, error, t);
      e := error[t];
      failed := failed - {t};
    }

    method FailReceiver(t: Tid, e: Err)
      requires Valid() && t in receivers && e != EOK
      modifies `receivers, `error, `failed
      ensures Valid() && receivers == Without(old(receivers), t) && failed == old(failed) + {t} &&
          error == old(error)[t := e]
      ensures |receivers| < |old(receivers)|
    {
      hide Ran, Waiters, Pool, DroppedAll;
      Fail(receivers, receiving, entry, senders, sending, |spare|, failed, error, t, e);
      error := error[t := e];
      receivers, failed := Without(receivers, t), failed + {t};
    }

    method FailSender(t: Tid, e: Err)
      requires Valid() && t in senders && e != EOK
      modifies `senders, `error, `failed
      ensures Valid() && senders == Without(old(senders), t) && failed == old(failed) + {t} &&
          error == old(error)[t := e]
      ensures |senders| < |old(senders)|
    {
      hide Ran, Waiters, Pool, DroppedAll;
      Swap(receivers, receiving, entry, senders, sending, |spare|, failed, error);
      Fail(senders, sending, |spare|, receivers, receiving, entry, failed, error, t, e);
      error := error[t := e];
      senders, failed := Without(senders, t), failed + {t};
      Swap(senders, sending, |spare|, receivers, receiving, entry, failed, error);
    }

    /** rt_mq_control(RT_IPC_CMD_RESET): every sleeper fails and the queued nodes become free. Nodes that a
        thread holds stay with it. */
    method Reset(t: Tid)
      requires Valid() && t !in holds
      modifies this
      ensures Valid() && mail == [] && receivers == senders == [] && holds == old(holds)
      ensures receiving == old(receiving) && sending == old(sending) && |spare| == old(|spare| + |queue|)
      ensures past == DroppedAll(old(past), old(mail))
    {
      hide Ran, Waiters, Pool, DroppedAll;
      FailAll();
      ghost var e0, s0 := entry, |spare|;
      DropAll(t);
      Nobody(receiving, e0, sending, s0, failed, error, 0, |spare|);
      entry := 0;
    }

    // rt_ipc_list_resume_all on both lists
    method FailAll()
      requires Valid()
      modifies `receivers, `senders, `error, `failed
      ensures Valid() && receivers == senders == []
    {
      hide Ran, Waiters, Pool, DroppedAll;
      while receivers != []
        invariant Valid()
        decreases |receivers|
      {
        FailReceiver(receivers[0], ERROR);
      }
      while senders != []
        invariant Valid() && receivers == []
        decreases |senders|
      {
        FailSender(senders[0], ERROR);
      }
    }

    // Every message is released; the calling thread holds the node between the two lists
    method DropAll(t: Tid)
      requires Pool(place, next, head, tail, free, entry, payload, msg_size, queue, spare, mail, holds) && t !in holds
      requires Ran(past, mail)
      modifies `next, `head, `tail, `free, `entry, `place, `queue, `spare, `mail, `holds, `past
      ensures Pool(place, next, head, tail, free, entry, payload, msg_size, queue, spare, mail, holds)
      ensures mail == [] && queue == [] && entry == 0 && holds == old(holds) && |spare| == old(|spare| + |queue|)
      ensures Ran(past, mail) && past == DroppedAll(old(past), old(mail))
    {
      hide Ran, Pool, LeftBy;
      HeadIsNull(place, next, head, tail, free, entry, payload, msg_size, queue, spare, mail, holds);
      while head != 0
        invariant Pool(place, next, head, tail, free, entry, payload, msg_size, queue, spare, mail, holds)
        invariant head == 0 <==> queue == []
        invariant Ran(past, mail) && DroppedAll(past, mail) == DroppedAll(old(past), old(mail))
        invariant entry == |queue| == |mail| && holds == old(holds) && |spare| + |queue| == old(|spare| + |queue|)
        decreases |queue|
      {
        var msg := head;
        RanLeave(past, mail, false);
        past := LeftBy(past, mail[0], false);
        Dequeue(t);
        GiveBack(t, msg);
        HeadIsNull(place, next, head, tail, free, entry, payload, msg_size, queue, spare, mail, holds);
        assert holds == old(holds);
      }
    }
  }

  // The loop of rt_mq_init: each node is linked in front of the ones below it
  method FreeList(pool: nat, size: nat, count: nat)
    returns (next: map<nat, nat>, first: nat, slots: map<nat, seq<Byte>>, ghost nodes: seq<nat>)
    requires pool > 0
    ensures Chain(next, first, nodes) && Distinct(nodes) && |nodes| == count && 0 !in nodes
    ensures forall b :: b in nodes ==> b in slots && |slots[b]| == size
  {
    hide Chain;
    next, first, slots, nodes := map[], 0, map[], [];
    EmptyChain(next);
    var node := pool;
    for i := 0 to count
      invariant Chain(next, first, nodes) && Distinct(nodes) && |nodes| == i && node == pool + i * (size + LINK)
      invariant forall b :: b in nodes ==> 0 < b < node && b in slots && |slots[b]| == size
    {
      ChainPush(next, first, nodes, node);
      next := next[node := first];
      slots := slots[node := seq(size, _ => 0)];
      first := node;
      nodes := [node] + nodes;
      node := node + (size + LINK);
    }
  }

  lemma EmptyChain(next: map<nat, nat>)
    ensures Chain(next, 0, []) && Distinct([])
  {
  }

  // ---- small facts for the methods ----

  lemma PopLists(place: map<nat, Place>, next: map<nat, nat>, head: nat, tail: nat, free: nat, queue: seq<nat>,
      spare: seq<nat>, holds: map<Tid, Hold>)
    requires Lists(next, head, tail, free, queue, spare) && Nodes(place, queue, spare, holds) && spare != []
    ensures free == spare[0] && free in next && Lists(next, head, tail, next[free], queue, spare[1..])
  {
    ChainPop(next, free, spare);
    hide Chain;
  }

  lemma PopSlots(place: map<nat, Place>, payload: map<nat, seq<Byte>>, size: nat, b: nat, t: Tid, queue: seq<nat>,
      spare: seq<nat>, holds: map<Tid, Hold>)
    requires Slots(place, payload, size) && Nodes(place, queue, spare, holds) && b in spare
    ensures Slots(place[b := IsHeld(t)], payload, size)
  {
  }

  lemma LinkSlots(place: map<nat, Place>, payload: map<nat, seq<Byte>>, size: nat, b: nat, p: Place)
    requires Slots(place, payload, size) && b in place
    ensures Slots(place[b := p], payload, size)
  {
  }

  lemma Apart(place: map<nat, Place>, queue: seq<nat>, spare: seq<nat>, holds: map<Tid, Hold>)
    requires Nodes(place, queue, spare, holds)
    ensures Distinct(queue) && Distinct(spare)
    ensures forall b :: b in queue ==> b in place && b !in spare
    ensures forall t :: t in holds ==> holds[t].node in place
  {
  }

  lemma FreeIsNull(place: map<nat, Place>, next: map<nat, nat>, head: nat, tail: nat, free: nat, entry: nat,
      payload: map<nat, seq<Byte>>, size: nat,
                   queue: seq<nat>, spare: seq<nat>, mail: seq<Letter>, holds: map<Tid, Hold>)
    requires Pool(place, next, head, tail, free, entry, payload, size, queue, spare, mail, holds)
    ensures free == 0 <==> spare == []
  {
  }

  lemma HeadIsNull(place: map<nat, Place>, next: map<nat, nat>, head: nat, tail: nat, free: nat, entry: nat,
      payload: map<nat, seq<Byte>>, size: nat,
                   queue: seq<nat>, spare: seq<nat>, mail: seq<Letter>, holds: map<Tid, Hold>)
    requires Pool(place, next, head, tail, free, entry, payload, size, queue, spare, mail, holds)
    ensures (head == 0 <==> queue == []) && entry == |queue| == |mail|
  {
  }

  lemma EntryCounts(place: map<nat, Place>, next: map<nat, nat>, head: nat, tail: nat, free: nat, entry: nat,
      payload: map<nat, seq<Byte>>, size: nat,
                    queue: seq<nat>, spare: seq<nat>, mail: seq<Letter>, holds: map<Tid, Hold>)
    requires Pool(place, next, head, tail, free, entry, payload, size, queue, spare, mail, holds)
    ensures entry == |queue| == |mail|
  {
  }

  lemma HeldNext(next: map<nat, nat>, payload: map<nat, seq<Byte>>, queue: seq<nat>, mail: seq<Letter>,
      holds: map<Tid, Hold>, t: Tid)
    requires Contents(next, payload, queue, mail, holds) && t in holds && holds[t].Filled? && !holds[t].letter.urgent
    ensures holds[t].node in next && next[holds[t].node] == 0
  {
    assert Held(next, payload, holds[t]);
  }

  lemma ReadOk(place: map<nat, Place>, next: map<nat, nat>, payload: map<nat, seq<Byte>>, queue: seq<nat>,
      spare: seq<nat>, mail: seq<Letter>,
               holds: map<Tid, Hold>, size: nat, t: Tid)
    requires Nodes(place, queue, spare, holds) && Slots(place, payload, size) &&
        Contents(next, payload, queue, mail, holds)
    requires t in holds && holds[t].Leaving?
    ensures holds[t].node in payload && |payload[holds[t].node]| == size &&
        Carries(payload[holds[t].node], holds[t].letter)
  {
    assert Held(next, payload, holds[t]);
  }
}
