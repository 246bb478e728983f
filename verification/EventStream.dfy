/** The in-process event stream: a map from a user to a shared, mutable
    list of bounded queues, changed in place by publish, subscribe and the
    end of a subscription. Proved to give every subscriber a mailbox of its
    own. */
module EventStream {
  import opened Common

  const QUEUE_SIZE := 64

  /** `user.None?` is a broadcast. */
  datatype Event = Event(id: int, user: Option<string>)

  /** How often an event is put in the queue of a subscriber: its own list
      and the list of "*" are served in turn. */
  function Times(email: string, e: Event): (n: nat)
    ensures n > 0 <==> e.user.None? || e.user == Some(email) || email == "*"
    ensures n > 1 <==> email == "*" && e.user == Some("*")
    ensures n <= 2
  {
    if e.user.None? then 1
    else (if e.user.value == email then 1 else 0) + if email == "*" then 1 else 0
  }

  /** `put_nowait`, `QueueFull` swallowed, some times over. */
  function PutTimes(items: seq<Event>, e: Event, n: nat): seq<Event> {
    if n == 0 then items
    else
      var before := PutTimes(items, e, n - 1);
      if |before| < QUEUE_SIZE then before + [e] else before
  }

  lemma PutOnce(items: seq<Event>, e: Event)
    ensures PutTimes(items, e, 1) == if |items| < QUEUE_SIZE then items + [e] else items
  {
  }

  // ----- what a run of operations means for each subscriber -----

  /** One put; `full` when 64 were pending. */
  datatype Offer = Offer(event: Event, full: bool)

  /** A subscriber seen on its own: `joined` counts the publications before
      it came, `puts` is all that was put while it was live. */
  datatype Mailbox = Mailbox(email: string, live: bool, received: seq<Event>, pending: seq<Event>, joined: nat, puts: seq<Offer>)
  {
    function Put(e: Event): Mailbox {
      var full := |pending| == QUEUE_SIZE;
      this.(pending := if full then pending else pending + [e], puts := puts + [Offer(e, full)])
    }

    function PutTimes(e: Event, n: nat): Mailbox {
      if n == 0 then this else PutTimes(e, n - 1).Put(e)
    }

    function Offered(e: Event): Mailbox {
      if live then PutTimes(e, Times(email, e)) else this
    }

    /** A subscriber that waits on an empty mailbox goes on waiting. */
    function Taken(): Mailbox {
      if pending != [] then this.(received := received + [pending[0]], pending := pending[1..]) else this
    }
  }

  datatype World = World(boxes: seq<Mailbox>, published: seq<Event>)

  /** What happens to the stream; subscribers are numbered as they come. */
  datatype Op = Subscribe(email: string) | Publish(event: Event) | Receive(k: nat) | Leave(k: nat)

  /** Only live subscribers receive and leave. */
  predicate Possible(w: World, op: Op) {
    op.Receive? || op.Leave? ==> op.k < |w.boxes| && w.boxes[op.k].live
  }

  function AllOffered(boxes: seq<Mailbox>, e: Event): seq<Mailbox> {
    seq(|boxes|, i requires 0 <= i < |boxes| => boxes[i].Offered(e))
  }

  function Step(w: World, op: Op): World
    requires Possible(w, op)
  {
    match op
    case Subscribe(email) => World(w.boxes + [Mailbox(email, true, [], [], |w.published|, [])], w.published)
    case Publish(e) => World(AllOffered(w.boxes, e), w.published + [e])
    case Receive(k) => World(w.boxes[k := w.boxes[k].Taken()], w.published)
    case Leave(k) => World(w.boxes[k := w.boxes[k].(live := false)], w.published)
  }

  predicate CanRun(w: World, ops: seq<Op>)
    decreases |ops|
  {
    ops == [] || (Possible(w, ops[0]) && CanRun(Step(w, ops[0]), ops[1..]))
  }

  function After(w: World, ops: seq<Op>): World
    requires CanRun(w, ops)
    decreases |ops|
  {
    if ops == [] then w else After(Step(w, ops[0]), ops[1..])
  }

  const START := World([], [])

  // ----- delivery, over runs -----

  /** What is left when the puts that found 64 pending are dropped. */
  function Delivered(puts: seq<Offer>): seq<Event> {
    if puts == [] then []
    else
      var last := puts[|puts| - 1];
      Delivered(puts[..|puts| - 1]) + if last.full then [] else [last.event]
  }

  function Events(puts: seq<Offer>): seq<Event> {
    seq(|puts|, i requires 0 <= i < |puts| => puts[i].event)
  }

  function Repeat(e: Event, n: nat): seq<Event> {
    if n == 0 then [] else Repeat(e, n - 1) + [e]
  }

  /** The publications addressed to a subscriber, as often as they are put. */
  function Due(email: string, events: seq<Event>): seq<Event> {
    if events == [] then []
    else
      var last := events[|events| - 1];
      Due(email, events[..|events| - 1]) + Repeat(last, Times(email, last))
  }

  /** What a subscriber received, followed by what is pending, is in order
      what was put in its mailbox, but the puts that found 64 pending; and
      while it is live, what was put is, in order, what was addressed to it
      and published since it joined. */
  ghost predicate DeliveryOk(b: Mailbox, published: seq<Event>) {
    && |b.pending| <= QUEUE_SIZE && b.received + b.pending == Delivered(b.puts)
    && b.joined <= |published| && (b.live ==> Events(b.puts) == Due(b.email, published[b.joined..]))
  }

  ghost predicate AllDelivered(w: World) {
    forall k :: 0 <= k < |w.boxes| ==> DeliveryOk(w.boxes[k], w.published)
  }

  lemma PutDelivers(b: Mailbox, e: Event)
    requires |b.pending| <= QUEUE_SIZE && b.received + b.pending == Delivered(b.puts)
    ensures var c := b.Put(e);
      && |c.pending| <= QUEUE_SIZE && c.received + c.pending == Delivered(c.puts)
      && Events(c.puts) == Events(b.puts) + [e]
  {
    var c := b.Put(e);
    assert c.puts[..|c.puts| - 1] == b.puts;
    assert b.received + (b.pending + [e]) == (b.received + b.pending) + [e];
  }

  lemma {:induction false} PutTimesDelivers(b: Mailbox, e: Event, n: nat)
    requires |b.pending| <= QUEUE_SIZE && b.received + b.pending == Delivered(b.puts)
    ensures var c := b.PutTimes(e, n);
      && c.email == b.email && c.live == b.live && c.received == b.received && c.joined == b.joined
      && c.pending == PutTimes(b.pending, e, n)
      && |c.pending| <= QUEUE_SIZE && c.received + c.pending == Delivered(c.puts)
      && Events(c.puts) == Events(b.puts) + Repeat(e, n)
  {
    if n == 0 {
      assert Events(b.puts) + [] == Events(b.puts);
    } else {
      PutTimesDelivers(b, e, n - 1);
      PutDelivers(b.PutTimes(e, n - 1), e);
      assert Events(b.puts) + Repeat(e, n - 1) + [e] == Events(b.puts) + (Repeat(e, n - 1) + [e]);
    }
  }

  lemma DueStep(email: string, published: seq<Event>, joined: nat, e: Event)
    requires joined <= |published|
    ensures Due(email, (published + [e])[joined..]) == Due(email, published[joined..]) + Repeat(e, Times(email, e))
  {
    var events := published[joined..];
    assert (published + [e])[joined..] == events + [e];
    assert (events + [e])[..|events|] == events;
  }

  lemma OfferedDelivers(b: Mailbox, published: seq<Event>, e: Event)
    requires DeliveryOk(b, published)
    ensures DeliveryOk(b.Offered(e), published + [e])
  {
    if b.live {
      PutTimesDelivers(b, e, Times(b.email, e));
      DueStep(b.email, published, b.joined, e);
    }
  }

  lemma TakenDelivers(b: Mailbox, published: seq<Event>)
    requires DeliveryOk(b, published)
    ensures DeliveryOk(b.Taken(), published)
  {
    if b.pending != [] {
      assert b.received + [b.pending[0]] + b.pending[1..] == b.received + b.pending;
    }
  }

  lemma StepDelivers(w: World, op: Op)
    requires AllDelivered(w) && Possible(w, op)
    ensures AllDelivered(Step(w, op))
  {
    match op
    case Subscribe(email) =>
      assert w.published[|w.published|..] == [];
    case Publish(e) =>
      forall k | 0 <= k < |w.boxes|
        ensures DeliveryOk(w.boxes[k].Offered(e), w.published + [e])
      {
        OfferedDelivers(w.boxes[k], w.published, e);
      }
    case Receive(k) =>
      TakenDelivers(w.boxes[k], w.published);
    case Leave(k) =>
      assert DeliveryOk(w.boxes[k], w.published);
  }

  /** The delivery property, over every run. */
  lemma {:induction false} RunDelivers(w: World, ops: seq<Op>)
    requires AllDelivered(w) && CanRun(w, ops)
    ensures AllDelivered(After(w, ops))
    decreases |ops|
  {
    if ops == [] {
    } else {
      StepDelivers(w, ops[0]);
      RunDelivers(Step(w, ops[0]), ops[1..]);
    }
  }

  // ----- nothing twice -----

  /** Among the events is one that a subscriber is given twice. */
  ghost predicate Repeats(email: string, events: seq<Event>) {
    email == "*" && exists e :: e in events && e.user == Some("*")
  }

  function To(email: string): Event -> bool {
    (e: Event) => e.user.None? || e.user == Some(email) || email == "*"
  }

  lemma RepeatOnce(e: Event)
    ensures Repeat(e, 0) == [] && Repeat(e, 1) == [e] && Repeat(e, 2) == [e, e]
  {
    assert Repeat(e, 2) == Repeat(e, 1) + [e];
  }

  /** For any other subscriber it is the order-preserving filter. */
  lemma {:induction false} DueIsFilter(email: string, events: seq<Event>)
    requires !Repeats(email, events)
    ensures Due(email, events) == Filter(events, To(email))
  {
    if events == [] {
    } else {
      var before, e := events[..|events| - 1], events[|events| - 1];
      assert events == before + [e];
      assert e in events;
      DueIsFilter(email, before);
      FilterAppend(before, [e], To(email));
      RepeatOnce(e);
    }
  }

  /** Over every run, what was put in a live mailbox is the order-preserving
      filter of the publications since it joined: the broadcasts and what
      names it, or everything for "*" if nothing is addressed to "*". */
  lemma RunDeliversAddressed(ops: seq<Op>, k: nat)
    requires CanRun(START, ops)
    requires var w := After(START, ops);
      && k < |w.boxes| && w.boxes[k].live && w.boxes[k].joined <= |w.published|
      && !Repeats(w.boxes[k].email, w.published[w.boxes[k].joined..])
    ensures var w := After(START, ops);
      Events(w.boxes[k].puts) == Filter(w.published[w.boxes[k].joined..], To(w.boxes[k].email))
  {
    RunDelivers(START, ops);
    var w := After(START, ops);
    assert DeliveryOk(w.boxes[k], w.published);
    DueIsFilter(w.boxes[k].email, w.published[w.boxes[k].joined..]);
  }

  lemma NoDupPrefix(s: seq<Event>, t: seq<Event>)
    requires NoDup(s + t)
    ensures NoDup(s) && forall x :: x in t ==> x !in s
  {
    forall i, j | 0 <= i < |s| && 0 <= j < |t|
      ensures s[i] != t[j]
    {
      assert (s + t)[i] != (s + t)[|s| + j];
    }
    forall i, j | 0 <= i < j < |s|
      ensures s[i] != s[j]
    {
      assert (s + t)[i] != (s + t)[j];
    }
  }

  lemma {:induction false} DueRepeats(email: string, events: seq<Event>)
    requires Repeats(email, events)
    ensures !NoDup(Due(email, events))
  {
    var before, e := events[..|events| - 1], events[|events| - 1];
    var due := Due(email, events);
    if e.user == Some("*") {
      RepeatOnce(e);
      assert due[|due| - 2] == due[|due| - 1];
    } else {
      assert events == before + [e];
      DueRepeats(email, before);
      if NoDup(due) {
        NoDupPrefix(Due(email, before), Repeat(e, Times(email, e)));
        assert false;
      }
    }
  }

  /** Distinct publications are put once each if and only if none addressed
      to "*" meets a subscriber of that name. */
  lemma DueOnceIff(email: string, events: seq<Event>)
    requires NoDup(events)
    ensures NoDup(Due(email, events)) <==> !Repeats(email, events)
  {
    if Repeats(email, events) {
      DueRepeats(email, events);
    } else {
      DueIsFilter(email, events);
      FilterNoDup(events, To(email));
    }
  }

  /** An event addressed to "*" reaches a subscriber of that name twice. */
  lemma StarGetsTwice(b: Mailbox, e: Event)
    requires b.live && b.email == "*" && |b.pending| + 2 <= QUEUE_SIZE && e.user == Some("*")
    ensures b.Offered(e).pending == b.pending + [e, e]
  {
    assert b.PutTimes(e, 2) == b.PutTimes(e, 1).Put(e) && b.PutTimes(e, 1) == b.PutTimes(e, 0).Put(e);
  }

  lemma {:induction false} DeliveredNoDup(puts: seq<Offer>)
    requires NoDup(Events(puts))
    ensures NoDup(Delivered(puts))
    ensures forall e :: e in Delivered(puts) ==> e in Events(puts)
  {
    if puts == [] {
    } else {
      var last := |puts| - 1;
      var rest, e := puts[..last], puts[last].event;
      assert Events(puts) == Events(rest) + [e];
      NoDupPrefix(Events(rest), [e]);
      DeliveredNoDup(rest);
      assert e !in Delivered(rest);
      NoDupConcat(Delivered(rest), [e]);
    }
  }

  /** A live subscriber is given nothing twice, when the publications since
      it joined are distinct and none repeats for it. */
  lemma DeliveredOnce(ops: seq<Op>, k: nat)
    requires CanRun(START, ops)
    requires var w := After(START, ops);
      && k < |w.boxes| && w.boxes[k].live && w.boxes[k].joined <= |w.published|
      && NoDup(w.published[w.boxes[k].joined..]) && !Repeats(w.boxes[k].email, w.published[w.boxes[k].joined..])
    ensures NoDup(After(START, ops).boxes[k].received + After(START, ops).boxes[k].pending)
  {
    RunDelivers(START, ops);
    var w := After(START, ops);
    var b := w.boxes[k];
    assert DeliveryOk(b, w.published);
    DueOnceIff(b.email, w.published[b.joined..]);
    DeliveredNoDup(b.puts);
  }

  // ----- the stream -----

  class Queue {
    var items: seq<Event>
    ghost var received: seq<Event>

    constructor ()
      ensures items == [] && received == []
    {
      items, received := [], [];
    }

    method Put(e: Event)
      modifies this`items
      ensures items == PutTimes(old(items), e, 1)
    {
      if |items| < QUEUE_SIZE {
        items := items + [e];
      }
    }

    method Get() returns (e: Event)
      requires items != []
      modifies this`items, this`received
      ensures e == old(items)[0] && items == old(items)[1..] && received == old(received) + [e]
    {
      e := items[0];
      received, items := received + [e], items[1..];
    }
  }

  /** The event is put in each of the queues, as often as it is listed. */
  method PutAll(targets: seq<Queue>, e: Event)
    modifies targets
    ensures forall q :: q in targets ==> q.received == old(q.received)
    ensures forall q :: q in targets ==> q.items == PutTimes(old(q.items), e, multiset(targets)[q])
  {
    for i := 0 to |targets|
      invariant forall q :: q in targets ==> q.received == old(q.received)
      invariant forall q :: q in targets ==> q.items == PutTimes(old(q.items), e, multiset(targets[..i])[q])
    {
      assert targets[..i + 1] == targets[..i] + [targets[i]];
      targets[i].Put(e);
    }
    assert targets[..|targets|] == targets;
  }

  class SubscriberList {
    var queues: seq<Queue>

    constructor ()
      ensures queues == []
    {
      queues := [];
    }
  }

  /** The frame of one `subscribe` generator. */
  class Subscription {
    const email: string
    const queue: Queue
    const subs: SubscriberList

    constructor (email: string, queue: Queue, subs: SubscriberList)
      ensures this.email == email && this.queue == queue && this.subs == subs
    {
      this.email, this.queue, this.subs := email, queue, subs;
    }
  }

  class InProcessEventStream {
    var subscribers: map<string, SubscriberList>
    /** The live subscription of each queue. */
    ghost var owner: map<Queue, Subscription>

    ghost function Lists(): set<SubscriberList>
      reads this
    {
      set u | u in subscribers :: subscribers[u]
    }

    ghost predicate Live(s: Subscription)
      reads this
    {
      s.queue in owner && owner[s.queue] == s
    }

    /** The list of a user holds the queues of its live subscriptions, each
        once, and is the very list each of them removes itself from. */
    ghost predicate ListOk(u: string)
      requires u in subscribers
      reads this, subscribers[u]
    {
      var queues := subscribers[u].queues;
      && queues != [] && NoDup(queues)
      && (forall q :: q in queues ==> q in owner && owner[q].email == u)
    }

    ghost predicate OwnerOk(q: Queue)
      requires q in owner
      reads this, Lists()
    {
      var s := owner[q];
      && s.queue == q && s.email in subscribers && subscribers[s.email] == s.subs && q in s.subs.queues
    }

    ghost predicate Valid()
      reads this, Lists()
    {
      && (forall u, v :: u in subscribers && v in subscribers && u != v ==> subscribers[u] != subscribers[v])
      && (forall u :: u in subscribers ==> ListOk(u))
      && (forall q :: q in owner ==> OwnerOk(q))
    }

    constructor ()
      ensures Valid() && owner == map[] && Lists() == {}
    {
      subscribers, owner := map[], map[];
    }

    /** A queue joins the list its user already has. */
    method JoinList(email: string, queue: Queue) returns (s: Subscription)
      requires Valid() && email in subscribers && queue !in owner
      modifies this`owner, subscribers[email]
      ensures Valid() && fresh(s) && s.email == email && s.queue == queue
      ensures owner == old(owner)[queue := s] && fresh(Lists() - old(Lists()))
    {
      var subs := subscribers[email];
      assert ListOk(email);
      subs.queues := subs.queues + [queue];
      s := new Subscription(email, queue, subs);
      owner := owner[queue := s];
      forall u | u in subscribers
        ensures ListOk(u)
      {
        assert old(ListOk(u));
        assert u != email ==> subscribers[u] != subs;
      }
      forall q | q in owner
        ensures OwnerOk(q)
      {
        if q != queue {
          assert old(OwnerOk(q));
        }
      }
    }

    /** Objects made since do not matter. */
    twostate lemma FrameOk()
      requires old(Valid()) && unchanged(this) && unchanged(old(Lists()))
      ensures Valid()
    {
      forall u | u in subscribers
        ensures ListOk(u)
      {
        assert old(ListOk(u));
      }
      forall q | q in owner
        ensures OwnerOk(q)
      {
        assert old(OwnerOk(q));
      }
    }

    /** A new list, of one queue, enters the map. */
    method EnterList(s: Subscription)
      requires Valid() && s.email !in subscribers && s.queue !in owner
      requires s.subs !in Lists() && s.subs.queues == [s.queue]
      modifies this
      ensures Valid() && owner == old(owner)[s.queue := s] && Lists() <= old(Lists()) + {s.subs}
    {
      forall q | q in owner
        ensures owner[q].email != s.email
      {
        assert OwnerOk(q);
      }
      subscribers, owner := subscribers[s.email := s.subs], owner[s.queue := s];
      forall u | u in subscribers
        ensures ListOk(u)
      {
        if u != s.email {
          assert old(ListOk(u));
        }
      }
      forall q | q in owner
        ensures OwnerOk(q)
      {
        if q != s.queue {
          assert old(OwnerOk(q));
        }
      }
    }

    /** A queue starts its user's list. */
    method StartList(email: string, queue: Queue) returns (s: Subscription)
      requires Valid() && email !in subscribers && queue !in owner
      modifies this
      ensures Valid() && fresh(s) && s.email == email && s.queue == queue
      ensures owner == old(owner)[queue := s] && fresh(Lists() - old(Lists()))
    {
      var subs := new SubscriberList();
      subs.queues := [queue];
      s := new Subscription(email, queue, subs);
      FrameOk();
      EnterList(s);
    }

    /** `subscribe`, up to its first wait. */
    method Subscribe(email: string) returns (s: Subscription)
      requires Valid()
      modifies this, Lists()
      ensures Valid() && fresh(s) && fresh(s.queue) && s.email == email
      ensures owner == old(owner)[s.queue := s]
      ensures s.queue.received == [] && s.queue.items == [] && fresh(Lists() - old(Lists()))
    {
      var queue := new Queue();
      if email in subscribers {
        s := JoinList(email, queue);
      } else {
        s := StartList(email, queue);
      }
    }

    /** One event handed to a subscriber that waits. */
    method Receive(s: Subscription) returns (e: Event)
      requires Valid() && Live(s) && s.queue.items != []
      modifies s.queue
      ensures Valid() && e == old(s.queue.items)[0] && s.queue.items == old(s.queue.items)[1..]
      ensures s.queue.received == old(s.queue.received) + [e]
    {
      e := s.queue.Get();
      FrameOk();
    }

    /** The subscription is gone from its list and from the owners, and
        nothing else changed. */
    twostate predicate HasLeft(s: Subscription)
      reads this, Lists(), s.subs
    {
      && owner == old(owner) - {s.queue}
      && s.subs.queues == Removed(old(s.subs.queues), s.queue)
      && subscribers == (if s.subs.queues == [] then old(subscribers) - {s.email} else old(subscribers))
      && forall u :: u in subscribers && u != s.email ==> subscribers[u].queues == old(subscribers[u].queues)
    }

    twostate lemma LeftValid(s: Subscription)
      requires old(Valid() && Live(s)) && HasLeft(s)
      ensures Valid()
    {
      assert old(OwnerOk(s.queue) && ListOk(s.email));
      RemovedOk(old(s.subs.queues), s.queue);
      forall u | u in subscribers
        ensures ListOk(u)
      {
        assert old(ListOk(u));
      }
      forall q | q in owner
        ensures OwnerOk(q)
      {
        assert old(OwnerOk(q));
      }
    }

    /** The `finally` of a subscription: its queue leaves the list, and an
        empty list leaves the map. */
    method Leave(s: Subscription)
      requires Valid() && Live(s)
      modifies this, s.subs
      ensures Valid() && owner == old(owner) - {s.queue} && Lists() <= old(Lists())
    {
      assert OwnerOk(s.queue);
      s.subs.queues := Removed(s.subs.queues, s.queue);
      if s.subs.queues == [] {
        subscribers := subscribers - {s.email};
      }
      owner := owner - {s.queue};
      LeftValid(s);
    }

    // ----- publish -----

    /** The queues of a user's list, none if there is no list. */
    function ListFor(u: string): seq<Queue>
      reads this, Lists()
    {
      if u in subscribers then subscribers[u].queues else []
    }

    /** Each live subscription's queue is among the targets as often as its
        user is among the users, and no other queue is. */
    ghost predicate TargetsOf(targets: seq<Queue>, users: multiset<string>)
      reads this
    {
      && (forall q :: q in targets ==> q in owner)
      && forall q :: q in owner ==> multiset(targets)[q] == users[owner[q].email]
    }

    /** One more user's list is added to the targets. */
    method ExtendTargets(targets: seq<Queue>, ghost users: multiset<string>, u: string) returns (more: seq<Queue>)
      requires Valid() && TargetsOf(targets, users)
      ensures TargetsOf(more, users + multiset{u})
    {
      var list := ListFor(u);
      more := targets + list;
      if u in subscribers {
        assert ListOk(u);
      }
      NoDupCounts(list);
      assert multiset(more) == multiset(targets) + multiset(list);
      forall q | q in owner
        ensures multiset(more)[q] == (users + multiset{u})[owner[q].email]
      {
        assert OwnerOk(q);
      }
    }

    /** The queues an event is put in, each as often as it is. */
    method Targets(e: Event) returns (targets: seq<Queue>)
      requires Valid()
      ensures forall q :: q in targets ==> q in owner
      ensures forall q :: q in owner ==> multiset(targets)[q] == Times(owner[q].email, e)
    {
      targets := [];
      if e.user.Some? {
        targets := ExtendTargets(targets, multiset{}, e.user.value);
        targets := ExtendTargets(targets, multiset{} + multiset{e.user.value}, "*");
      } else {
        targets := AllTargets();
        assert forall q :: q in owner ==> OwnerOk(q);
      }
    }

    method AllTargets() returns (targets: seq<Queue>)
      requires Valid()
      ensures TargetsOf(targets, multiset(subscribers.Keys))
    {
      targets := [];
      var todo := subscribers.Keys;
      while todo != {}
        invariant todo <= subscribers.Keys && TargetsOf(targets, multiset(subscribers.Keys - todo))
      {
        var u :| u in todo;
        targets := ExtendTargets(targets, multiset(subscribers.Keys - todo), u);
        assert multiset(subscribers.Keys - (todo - {u})) == multiset(subscribers.Keys - todo) + multiset{u};
        todo := todo - {u};
      }
      assert subscribers.Keys - {} == subscribers.Keys;
    }

    /** `publish`: every live subscriber is offered the event as often as it
        is addressed to it, and no other queue changes. */
    method Publish(e: Event)
      requires Valid()
      modifies owner.Keys
      ensures Valid()
      ensures forall q :: q in owner ==>
        q.received == old(q.received) && q.items == PutTimes(old(q.items), e, Times(owner[q].email, e))
      ensures forall q :: q in owner && (e.user.None? || (e.user == Some(owner[q].email) && e.user != Some("*"))) ==>
        q.items == if |old(q.items)| < QUEUE_SIZE then old(q.items) + [e] else old(q.items)
      ensures forall q :: q in owner && e.user.Some? && owner[q].email != e.user.value && owner[q].email != "*" ==>
        q.items == old(q.items)
    {
      var targets := Targets(e);
      PutAll(targets, e);
      FrameOk();
      forall q | q in owner
        ensures Times(owner[q].email, e) == 1 ==> q.items == if |old(q.items)| < QUEUE_SIZE then old(q.items) + [e] else old(q.items)
      {
        PutOnce(old(q.items), e);
      }
    }

    // ----- the run -----

    /** The subscriptions made so far are the mailboxes of the world. */
    ghost predicate Mirrors(subs: seq<Subscription>, w: World)
      reads this, set s | s in subs :: s.queue
    {
      && |subs| == |w.boxes| && (forall i, j :: 0 <= i < j < |subs| ==> subs[i].queue != subs[j].queue)
      && forall k :: 0 <= k < |subs| ==> MirrorsAt(subs[k], w.boxes[k])
    }

    ghost predicate MirrorsAt(s: Subscription, b: Mailbox)
      reads this, s.queue
    {
      && s.email == b.email && s.queue.items == b.pending && s.queue.received == b.received
      && (b.live ==> Live(s)) && (!b.live ==> s.queue !in owner)
    }

    method PerformSubscribe(email: string, subs: seq<Subscription>, ghost w: World) returns (next: seq<Subscription>)
      requires Valid() && Mirrors(subs, w)
      modifies this, Lists()
      ensures Valid() && Mirrors(next, Step(w, Op.Subscribe(email)))
      ensures fresh(Lists() - old(Lists())) && fresh(owner.Keys - old(owner).Keys)
    {
      var s := Subscribe(email);
      next := subs + [s];
      forall k | 0 <= k < |subs|
        ensures MirrorsAt(subs[k], w.boxes[k])
      {
        assert old(MirrorsAt(subs[k], w.boxes[k]));
      }
    }

    method PerformPublish(e: Event, subs: seq<Subscription>, ghost w: World)
      requires Valid() && Mirrors(subs, w) && AllDelivered(w)
      modifies owner.Keys
      ensures Valid() && Mirrors(subs, Step(w, Op.Publish(e)))
    {
      Publish(e);
      forall k | 0 <= k < |subs|
        ensures MirrorsAt(subs[k], w.boxes[k].Offered(e))
      {
        assert old(MirrorsAt(subs[k], w.boxes[k])) && DeliveryOk(w.boxes[k], w.published);
        PutTimesDelivers(w.boxes[k], e, Times(w.boxes[k].email, e));
      }
    }

    method PerformReceive(n: nat, subs: seq<Subscription>, ghost w: World)
      requires Valid() && Mirrors(subs, w) && Possible(w, Op.Receive(n))
      modifies owner.Keys
      ensures Valid() && Mirrors(subs, Step(w, Op.Receive(n)))
    {
      assert MirrorsAt(subs[n], w.boxes[n]);
      if subs[n].queue.items != [] {
        var e := Receive(subs[n]);
        forall k | 0 <= k < |subs|
          ensures MirrorsAt(subs[k], Step(w, Op.Receive(n)).boxes[k])
        {
          assert old(MirrorsAt(subs[k], w.boxes[k]));
        }
      }
    }

    method PerformLeave(n: nat, subs: seq<Subscription>, ghost w: World)
      requires Valid() && Mirrors(subs, w) && Possible(w, Op.Leave(n))
      modifies this, Lists()
      ensures Valid() && Mirrors(subs, Step(w, Op.Leave(n)))
      ensures Lists() <= old(Lists()) && owner.Keys <= old(owner).Keys
    {
      assert MirrorsAt(subs[n], w.boxes[n]);
      assert OwnerOk(subs[n].queue);
      Leave(subs[n]);
      forall k | 0 <= k < |subs|
        ensures MirrorsAt(subs[k], Step(w, Op.Leave(n)).boxes[k])
      {
        assert old(MirrorsAt(subs[k], w.boxes[k]));
      }
    }

    /** One operation, on the stream and on the mailboxes. */
    method Perform(op: Op, subs: seq<Subscription>, ghost w: World) returns (next: seq<Subscription>)
      requires Valid() && Mirrors(subs, w) && AllDelivered(w) && Possible(w, op)
      modifies this, Lists(), owner.Keys
      ensures Valid() && Mirrors(next, Step(w, op))
      ensures fresh(Lists() - old(Lists())) && fresh(owner.Keys - old(owner).Keys)
    {
      next := subs;
      match op
      case Subscribe(email) =>
        next := PerformSubscribe(email, subs, w);
      case Publish(e) =>
        PerformPublish(e, subs, w);
      case Receive(k) =>
        PerformReceive(k, subs, w);
      case Leave(k) =>
        PerformLeave(k, subs, w);
    }
  }

  /** Over every run of joins, publications, receipts and leaves, what each
      subscriber received and what is pending for it are those of a mailbox
      of its own, and so delivered as it promises. */
  method Run(ops: seq<Op>) returns (stream: InProcessEventStream, subs: seq<Subscription>)
    requires CanRun(START, ops)
    ensures fresh(stream) && stream.Valid() && stream.Mirrors(subs, After(START, ops))
    ensures AllDelivered(After(START, ops))
  {
    stream := new InProcessEventStream();
    subs := [];
    ghost var w := START;
    for i := 0 to |ops|
      invariant fresh(stream) && fresh(stream.Lists()) && fresh(stream.owner.Keys)
      invariant stream.Valid() && stream.Mirrors(subs, w) && AllDelivered(w)
      invariant CanRun(w, ops[i..]) && After(w, ops[i..]) == After(START, ops)
    {
      assert ops[i..][1..] == ops[i + 1..];
      StepDelivers(w, ops[i]);
      subs := stream.Perform(ops[i], subs, w);
      w := Step(w, ops[i]);
    }
  }

  lemma {:induction false} NoDupCounts<T>(s: seq<T>)
    requires NoDup(s)
    ensures forall x :: multiset(s)[x] == if x in s then 1 else 0
  {
    if s == [] {
    } else {
      assert s == [s[0]] + s[1..];
      NoDupCounts(s[1..]);
    }
  }

  /** `list.remove` */
  function Removed<T(==)>(s: seq<T>, x: T): seq<T> {
    if s == [] then [] else if s[0] == x then s[1..] else [s[0]] + Removed(s[1..], x)
  }

  function Not<T(==)>(x: T): T -> bool {
    (y: T) => y != x
  }

  /** From a list without repetitions it removes the one element. */
  lemma {:induction false} RemovedIsFilter<T>(s: seq<T>, x: T)
    requires NoDup(s)
    ensures Removed(s, x) == Filter(s, Not(x))
  {
    if s == [] {
    } else {
      if s[0] == x {
        FilterAll(s[1..], Not(x));
      } else {
        RemovedIsFilter(s[1..], x);
      }
    }
  }

  lemma RemovedOk<T>(s: seq<T>, x: T)
    requires NoDup(s)
    ensures NoDup(Removed(s, x))
    ensures forall y :: y in Removed(s, x) <==> y in s && y != x
  {
    RemovedIsFilter(s, x);
    FilterNoDup(s, Not(x));
    FilterIn(s, Not(x));
  }
}
