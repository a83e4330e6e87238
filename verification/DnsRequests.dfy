/** The circular lists in which evdns keeps its requests. */
module RequestRing {
  /** A request, as far as the rings see it. */
  class Request {
    var next: Request?
    var prev: Request?

    constructor ()
      ensures next == null && prev == null
    {
      next, prev := null, null;
    }
  }

  /** q are the requests of the ring that head points to, in order. */
  ghost predicate Ring(head: Request?, q: seq<Request>)
    reads q
  {
    && head == (if q == [] then null else q[0])
    && (forall i, j :: 0 <= i < j < |q| ==> q[i] != q[j])
    && (forall i {:trigger q[i].next} :: 0 <= i < |q| ==> q[i].next == After(q, i))
    && (forall i {:trigger q[i].prev} :: 0 <= i < |q| ==> q[i].prev == Before(q, i))
  }

  ghost function After(q: seq<Request>, i: nat): Request
    requires i < |q|
  {
    if i + 1 < |q| then q[i + 1] else q[0]
  }

  ghost function Before(q: seq<Request>, i: nat): Request
    requires i < |q|
  {
    if 0 < i then q[i - 1] else q[|q| - 1]
  }

  /** evdns_request_insert: to the tail. */
  method Insert(req: Request, head: Request?, ghost q: seq<Request>) returns (head': Request?)
    requires Ring(head, q) && req !in q
    modifies q`next, q`prev, req`next, req`prev
    ensures Ring(head', q + [req])
  {
    if head == null {
      req.next, req.prev := req, req;
      return req;
    }
    assert head == q[0] && q[0].prev == q[|q| - 1];
    ghost var r := q + [req];
    req.prev := head.prev;
    req.prev.next := req;
    req.next := head;
    head.prev := req;
    forall i | 0 <= i < |r|
      ensures r[i].next == After(r, i) && r[i].prev == Before(r, i)
    {
    }
    return head;
  }

  /** The neighbours of place k; it is its own neighbour only if it is alone. */
  lemma Neighbours(q: seq<Request>, k: nat)
    requires k < |q| && forall a, b :: 0 <= a < b < |q| ==> q[a] != q[b]
    ensures After(q, k) in q && Before(q, k) in q && (After(q, k) == q[k] <==> |q| == 1)
    ensures (Before(q, k) == q[k] <==> |q| == 1)
    ensures k == 0 && 1 < |q| ==> After(q, k) == q[1]
  {
  }

  /** evdns_request_remove */
  method Remove(req: Request, head: Request?, ghost q: seq<Request>, ghost k: nat) returns (head': Request?)
    requires Ring(head, q) && k < |q| && q[k] == req
    modifies q`next, q`prev
    ensures Ring(head', q[..k] + q[k + 1..]) && req.next == null && req.prev == null
  {
    hide After, Before;
    head' := head;
    ghost var r := q[..k] + q[k + 1..];
    Neighbours(q, k);
    assert req.next == After(q, k) && req.prev == Before(q, k);
    if req.next == req {
      head' := null;
    } else {
      req.next.prev := req.prev;
      req.prev.next := req.next;
      if head' == req {
        head' := req.next;
      }
    }
    req.next, req.prev := null, null;
    forall i | 0 <= i < |r|
      ensures r[i].next == After(r, i) && r[i].prev == Before(r, i)
    {
      WithoutOne(q, k, i);
    }
    WithoutDistinct(q, k);
  }

  /** The neighbours of those that stay when place k is taken out. */
  lemma WithoutOne(q: seq<Request>, k: nat, i: nat)
    requires k < |q| && i + 1 < |q| && forall a, b :: 0 <= a < b < |q| ==> q[a] != q[b]
    ensures var r := q[..k] + q[k + 1..];
            var m := if i < k then i else i + 1;
            && r[i] == q[m] && q[m] != q[k]
            && After(r, i) == (if q[m] == Before(q, k) then After(q, k) else After(q, m))
            && Before(r, i) == (if q[m] == After(q, k) then Before(q, k) else Before(q, m))
  {
  }

  lemma WithoutDistinct(q: seq<Request>, k: nat)
    requires k < |q| && forall a, b :: 0 <= a < b < |q| ==> q[a] != q[b]
    ensures var r := q[..k] + q[k + 1..];
            forall a, b :: 0 <= a < b < |r| ==> r[a] != r[b]
  {
  }
}

/** The requests of an evdns base: buckets of inflight requests, the queue of waiting ones, and
    the counters.  A ring is the sequence of its requests: inserting appends to it, removing
    takes one out. */
module DnsRequests {
  import opened Common
  import opened TailQueue

  /** No nameserver. */
  const NONE: int := -1

  /** What a request says about itself: its transaction id, and the nameserver it was last sent
      to or NONE. */
  datatype Info = Info(transId: nat, ns: int)

  /** REQ_HEAD: the bucket of a transaction id. */
  function Bucket(transId: nat, n: nat): (b: nat)
    requires 0 < n
    ensures b < n
  {
    transId % n
  }

  /** The requests that are with server s. */
  ghost function With(info: map<nat, Info>, s: int): set<nat> {
    set x | x in info && info[x].ns == s
  }

  /** Every request is in one place: in the bucket of its transaction id if it has a
      nameserver, and in the waiting queue if not. */
  ghost predicate Placed(heads: seq<seq<nat>>, waiting: seq<nat>, info: map<nat, Info>) {
    && 0 < |heads| && NoDup(waiting) && (forall b :: 0 <= b < |heads| ==> NoDup(heads[b]))
    && (forall b, x :: 0 <= b < |heads| ==>
        (x in heads[b] <==> x in info && info[x].ns != NONE && Bucket(info[x].transId, |heads|) == b))
    && (forall x :: x in waiting <==> x in info && info[x].ns == NONE)
  }

  /** The ring holds just the servers, and those that are up are counted. */
  ghost predicate Serving(ring: seq<nat>, servers: set<int>, up: set<nat>, good: int) {
    && (forall s: nat :: s in ring <==> s in servers) && (forall s :: s in servers ==> 0 <= s)
    && (forall s: nat :: s in up ==> s in ring) && good == |up|
  }

  /** The counters of the servers. */
  ghost predicate Counted(info: map<nat, Info>, perServer: map<int, int>) {
    && NONE !in perServer
    && (forall x :: x in info && info[x].ns != NONE ==> info[x].ns in perServer)
    && (forall s :: s in perServer ==> perServer[s] == |With(info, s)|)
  }

  lemma WithChange(info: map<nat, Info>, x: nat, i: Info)
    ensures forall s {:trigger With(info[x := i], s)} ::
      |With(info[x := i], s)| == |With(info, s)| + (if i.ns == s then 1 else 0)
                                 - (if x in info && info[x].ns == s then 1 else 0)
  {
    forall s {:trigger With(info[x := i], s)}
      ensures |With(info[x := i], s)| == |With(info, s)| + (if i.ns == s then 1 else 0)
                                         - (if x in info && info[x].ns == s then 1 else 0)
    {
      var w := With(info, s);
      if i.ns == s {
        assert With(info[x := i], s) == w + {x};
      } else {
        assert With(info[x := i], s) == w - {x};
      }
    }
  }

  lemma WithDrop(info: map<nat, Info>, x: nat)
    requires x in info
    ensures forall s {:trigger With(info - {x}, s)} ::
      |With(info - {x}, s)| == |With(info, s)| - (if info[x].ns == s then 1 else 0)
  {
    forall s {:trigger With(info - {x}, s)}
      ensures |With(info - {x}, s)| == |With(info, s)| - (if info[x].ns == s then 1 else 0)
    {
      assert With(info - {x}, s) == With(info, s) - {x};
    }
  }

  /** A new request, or one that leaves the waiting queue, enters the bucket of its id. */
  lemma EnterBucket(heads: seq<seq<nat>>, waiting: seq<nat>, info: map<nat, Info>, x: nat, i: Info)
    requires Placed(heads, waiting, info) && (x in info ==> info[x].ns == NONE) && i.ns != NONE
    ensures var b := Bucket(i.transId, |heads|);
            var w := if x in info then Removed(waiting, x) else waiting;
            && Placed(heads[b := heads[b] + [x]], w, info[x := i])
            && Total(heads[b := heads[b] + [x]]) == Total(heads) + 1 && (x in info ==> |w| == |waiting| - 1)
  {
    hide Bucket, Total, Removed;
    var b := Bucket(i.transId, |heads|);
    Appended(heads[b], x);
    TotalUpdate(heads, b, heads[b] + [x]);
    if x in info {
      RemovedIs(waiting, x);
    }
  }

  lemma EnterWaiting(heads: seq<seq<nat>>, waiting: seq<nat>, info: map<nat, Info>, x: nat, i: Info)
    requires Placed(heads, waiting, info) && x !in info && i.ns == NONE
    ensures Placed(heads, waiting + [x], info[x := i])
  {
    hide Bucket;
    Appended(waiting, x);
  }

  lemma LeaveBucket(heads: seq<seq<nat>>, waiting: seq<nat>, info: map<nat, Info>, x: nat)
    requires Placed(heads, waiting, info) && x in info && info[x].ns != NONE
    ensures var b := Bucket(info[x].transId, |heads|);
            && x in heads[b] && Placed(heads[b := Removed(heads[b], x)], waiting, info - {x})
            && Total(heads[b := Removed(heads[b], x)]) == Total(heads) - 1
  {
    hide Bucket, Total, Removed;
    var b := Bucket(info[x].transId, |heads|);
    assert x in heads[b];
    RemovedIs(heads[b], x);
    TotalUpdate(heads, b, Removed(heads[b], x));
  }

  lemma LeaveWaiting(heads: seq<seq<nat>>, waiting: seq<nat>, info: map<nat, Info>, x: nat)
    requires Placed(heads, waiting, info) && x in info && info[x].ns == NONE
    ensures x in waiting && Placed(heads, Removed(waiting, x), info - {x}) && |Removed(waiting, x)| == |waiting| - 1
  {
    hide Bucket, Removed;
    RemovedIs(waiting, x);
  }

  /** A request that goes from one server to another stays where it is. */
  lemma StayInBucket(heads: seq<seq<nat>>, waiting: seq<nat>, info: map<nat, Info>, x: nat, s: int)
    requires Placed(heads, waiting, info) && x in info && info[x].ns != NONE && s != NONE
    ensures Placed(heads, waiting, info[x := info[x].(ns := s)])
  {
    hide Bucket;
  }

  /** A request that a server gets is counted, and one that it loses no longer. */
  lemma CountEnter(info: map<nat, Info>, perServer: map<int, int>, x: nat, i: Info)
    requires Counted(info, perServer) && (x in info ==> info[x].ns == NONE) && (i.ns == NONE || i.ns in perServer)
    ensures Counted(info[x := i], if i.ns == NONE then perServer else perServer[i.ns := perServer[i.ns] + 1])
  {
    hide With;
    WithChange(info, x, i);
  }

  lemma CountLeave(info: map<nat, Info>, perServer: map<int, int>, x: nat)
    requires Counted(info, perServer) && x in info
    ensures info[x].ns == NONE || info[x].ns in perServer
    ensures var s := info[x].ns;
            Counted(info - {x}, if s == NONE then perServer else perServer[s := perServer[s] - 1])
  {
    hide With;
    WithDrop(info, x);
  }

  /** And the counters of the two servers change. */
  lemma CountSwap(info: map<nat, Info>, perServer: map<int, int>, x: nat, s: int)
    requires Counted(info, perServer) && x in info && info[x].ns in perServer && s in perServer && info[x].ns != s
    ensures var from := info[x].ns;
            Counted(info[x := info[x].(ns := s)], perServer[from := perServer[from] - 1][s := perServer[s] + 1])
  {
    hide With;
    WithChange(info, x, info[x].(ns := s));
  }

  /** The first server of a ring that is up. */
  method FirstUp(ring: seq<nat>, up: set<nat>) returns (j: nat)
    requires |up| != 0 && forall s :: s in up ==> s in ring
    ensures j < |ring| && ring[j] in up && forall i :: 0 <= i < j ==> ring[i] !in up
  {
    j := 0;
    SomeUp(ring, up, 0);
    while ring[j] !in up
      invariant j < |ring| && forall i :: 0 <= i < j ==> ring[i] !in up
      decreases |ring| - j
    {
      SomeUp(ring, up, j + 1);
      j := j + 1;
    }
  }

  class Base {
    /** req_heads and n_req_heads */
    var heads: seq<seq<nat>>
    /** The ring at req_waiting_head */
    var waiting: seq<nat>
    var info: map<nat, Info>
    /** global_requests_inflight, global_requests_waiting, global_max_requests_inflight */
    var inflight: int
    var waitingCount: int
    var maxInflight: int
    /** requests_inflight of each nameserver */
    var perServer: map<int, int>
    /** The ring of nameservers, from server_head on. */
    var ring: seq<nat>
    /** The servers whose state is up, and global_good_nameservers. */
    var up: set<nat>
    var good: int

    ghost predicate Valid()
      reads this
    {
      && Placed(heads, waiting, info) && Counted(info, perServer)
      && inflight == Total(heads) && waitingCount == |waiting|
      && Serving(ring, perServer.Keys, up, good)
    }

    constructor (servers: seq<nat>)
      ensures Valid() && info == map[] && ring == servers && forall s: nat :: s in perServer <==> s in servers
    {
      heads, waiting, info := [[]], [], map[];
      inflight, waitingCount, maxInflight := 0, 0, 1;
      perServer := map s | s in servers :: 0;
      var all := set s | s in servers;
      ring, up, good := servers, all, |all|;
      new;
      assert forall s :: With(info, s) == {};
    }

    /** nameserver_pick: the next server that is up, round the ring; if none is, just the next. */
    method PickServer() returns (s: int, ghost k: nat)
      requires Valid()
      modifies `ring
      ensures Valid() && (s == NONE <==> perServer.Keys == {}) && (s != NONE ==> s in perServer)
      ensures up != {} ==>
        k < |old(ring)| && s == old(ring)[k] && s in up && forall i :: 0 <= i < k ==> old(ring)[i] !in up
      ensures up != {} ==> ring == old(ring)[k + 1..] + old(ring)[..k + 1]
      ensures up == {} && old(ring) != [] ==> ring == old(ring)[1..] + old(ring)[..1] && s == ring[0]
    {
      hide Placed, Counted, Total, Serving;
      k := 0;
      NoneNoServer(info, perServer);
      ServingFacts(ring, perServer.Keys, up, good);
      if ring == [] {
        return NONE, 0;
      }
      if good == 0 {
        ServingTurned(ring, perServer.Keys, up, good, 1);
        ring := ring[1..] + ring[..1];
        ServingFacts(ring, perServer.Keys, up, good);
        return ring[0], 0;
      }
      var j := FirstUp(ring, up);
      k := j;
      ServingTurned(ring, perServer.Keys, up, good, j + 1);
      s := ring[j];
      ring := ring[j + 1..] + ring[..j + 1];
    }

    /** request_find_from_trans_id */
    method Find(id: nat) returns (r: int)
      requires Valid()
      ensures r == -1 || 0 <= r
      ensures 0 <= r ==> r in info && info[r].ns != NONE && info[r].transId == id
      ensures r == -1 ==> forall x :: x in info && info[x].ns != NONE ==> info[x].transId != id
    {
      var q := heads[Bucket(id, |heads|)];
      var k := 0;
      while k < |q|
        invariant 0 <= k <= |q| && forall i :: 0 <= i < k ==> q[i] in info && info[q[i]].transId != id
      {
        assert q[k] in q;
        if info[q[k]].transId == id {
          return q[k];
        }
        k := k + 1;
      }
      assert forall x :: x in q ==> info[x].transId != id;
      return -1;
    }

    /** request_submit, for a request that request_new has filled in */
    method Submit(x: nat, i: Info)
      requires Valid() && x !in info && (i.ns == NONE || i.ns in perServer)
      modifies this
      ensures Valid() && info == old(info)[x := i] && perServer.Keys == old(perServer.Keys)
      ensures inflight == old(inflight) + (if i.ns == NONE then 0 else 1)
      ensures waitingCount == old(waitingCount) + if i.ns == NONE then 1 else 0
      ensures waiting == old(waiting) + if i.ns == NONE then [x] else []
    {
      hide Placed, Counted, Total, Serving;
      CountEnter(info, perServer, x, i);
      if i.ns != NONE {
        EnterBucket(heads, waiting, info, x, i);
        HasBuckets(heads, waiting, info);
        var b := Bucket(i.transId, |heads|);
        heads := heads[b := heads[b] + [x]];
        inflight := inflight + 1;
        SameServers(perServer, i.ns, perServer[i.ns] + 1);
        perServer := perServer[i.ns := perServer[i.ns] + 1];
      } else {
        EnterWaiting(heads, waiting, info, x, i);
        waiting := waiting + [x];
        waitingCount := waitingCount + 1;
      }
      info := info[x := i];
    }

    /** Moves the first waiting request to the bucket of a new transaction id. */
    method Promote(s: int) returns (ghost i: Info)
      requires Valid() && waiting != [] && s in perServer
      modifies `heads, `waiting, `info, `inflight, `waitingCount, `perServer
      ensures Valid() && perServer.Keys == old(perServer.Keys) && waiting == old(waiting)[1..]
      ensures inflight == old(inflight) + 1 && waitingCount == old(waitingCount) - 1
      ensures old(waiting)[0] in old(info)
      ensures i.ns == s && info == old(info)[old(waiting)[0] := i]
    {
      hide Placed, Counted, Total, Serving;
      var x := waiting[0];
      FirstWaiting(heads, waiting, info);
      var id: nat :| id < 0xffff;
      i := Info(id, s);
      NoneNoServer(info, perServer);
      CountEnter(info, perServer, x, i);
      EnterBucket(heads, waiting, info, x, i);
      HasBuckets(heads, waiting, info);
      SameServers(perServer, s, perServer[s] + 1);
      perServer := perServer[s := perServer[s] + 1];
      waiting := Removed(waiting, x);
      waitingCount := waitingCount - 1;
      inflight := inflight + 1;
      var b := Bucket(id, |heads|);
      heads := heads[b := heads[b] + [x]];
      info := info[x := Info(id, s)];
    }

    /** evdns_requests_pump_waiting_queue: requests leave the queue in order, until it is empty
        or enough are inflight or no server is to be had. */
    method Pump() returns (ghost gone: nat)
      requires Valid()
      modifies `heads, `waiting, `info, `inflight, `waitingCount, `perServer, `ring
      ensures Valid() && info.Keys == old(info.Keys) && perServer.Keys == old(perServer.Keys)
      ensures inflight + waitingCount == old(inflight + waitingCount)
      ensures gone <= |old(waiting)| && waiting == old(waiting)[gone..] && Kept(old(info), info, waiting)
      ensures if perServer.Keys == {} then gone == 0 else waitingCount == 0 || maxInflight <= inflight
      ensures inflight <= if old(inflight) < maxInflight then maxInflight else old(inflight)
    {
      hide Placed, With, Total, Counted, Kept, Serving;
      ghost var w := waiting;
      gone := 0;
      assert w[0..] == w;
      KeptSelf(info, waiting);
      while inflight < maxInflight && waitingCount != 0
        invariant Valid() && info.Keys == old(info.Keys) && perServer.Keys == old(perServer.Keys)
        invariant inflight + waitingCount == old(inflight + waitingCount)
        invariant perServer.Keys == {} ==> gone == 0
        invariant gone <= |w| && waiting == w[gone..] && Kept(old(info), info, waiting)
        invariant inflight <= if old(inflight) < maxInflight then maxInflight else old(inflight)
        decreases waitingCount
      {
        var s, _ := PickServer();
        if s == NONE {
          return gone;
        }
        ghost var before := info;
        FirstWaiting(heads, waiting, info);
        WaitingNoDup(heads, waiting, info);
        assert w[gone..][1..] == w[gone + 1..];
        ghost var i := Promote(s);
        KeptNext(old(info), before, info, w[gone..], i);
        gone := gone + 1;
      }
    }

    /** request_finished, which also cancelling comes down to. */
    method Finish(x: nat) returns (ghost gone: nat)
      requires Valid() && x in info
      modifies `heads, `waiting, `info, `inflight, `waitingCount, `perServer, `ring
      ensures Valid() && info.Keys == old(info.Keys) - {x} && perServer.Keys == old(perServer.Keys)
      ensures inflight + waitingCount == old(inflight + waitingCount) - 1
      ensures old(inflight) <= maxInflight ==> inflight <= maxInflight
      ensures perServer.Keys == {} || waitingCount == 0 || maxInflight <= inflight
      ensures Kept(old(info), info, waiting)
      ensures var left := if old(info)[x].ns == NONE then Removed(old(waiting), x) else old(waiting);
              gone <= |left| && waiting == left[gone..]
    {
      hide Placed, Counted, Total, Serving;
      CountLeave(info, perServer, x);
      if info[x].ns != NONE {
        LeaveBucket(heads, waiting, info, x);
        HasBuckets(heads, waiting, info);
        var b := Bucket(info[x].transId, |heads|);
        heads := heads[b := Removed(heads[b], x)];
        inflight := inflight - 1;
        SameServers(perServer, info[x].ns, perServer[info[x].ns] - 1);
        perServer := perServer[info[x].ns := perServer[info[x].ns] - 1];
      } else {
        LeaveWaiting(heads, waiting, info, x);
        waiting := Removed(waiting, x);
        waitingCount := waitingCount - 1;
      }
      info := info - {x};
      gone := Pump();
    }

    /** request_swap_ns */
    method SwapServer(x: nat, s: int)
      requires Valid() && x in info && info[x].ns != NONE && (s == NONE || s in perServer)
      modifies `info, `perServer
      ensures Valid() && perServer.Keys == old(perServer.Keys)
      ensures info == if s == NONE then old(info) else old(info)[x := old(info)[x].(ns := s)]
    {
      hide Placed, Total, Counted, Serving;
      ServerKnown(info, perServer, x);
      if s != NONE && info[x].ns != s {
        StayInBucket(heads, waiting, info, x, s);
        CountSwap(info, perServer, x, s);
        SameServers(perServer, info[x].ns, perServer[info[x].ns] - 1);
        perServer := perServer[info[x].ns := perServer[info[x].ns] - 1];
        SameServers(perServer, s, perServer[s] + 1);
        perServer := perServer[s := perServer[s] + 1];
        info := info[x := info[x].(ns := s)];
      } else if s != NONE {
        assert info == info[x := info[x].(ns := s)];
      }
    }

    /** nameserver_up: if the server was down it is up again, and the request that probed it is
        cancelled. */
    method NameserverUp(s: nat, probe: Option<nat>)
      requires Valid() && s in perServer && (probe.Some? ==> probe.value in info)
      modifies `heads, `waiting, `info, `inflight, `waitingCount, `perServer, `ring, `up, `good
      ensures Valid() && up == old(up) + {s} && perServer.Keys == old(perServer.Keys)
      ensures info.Keys == old(info.Keys) - if probe.Some? && s !in old(up) then {probe.value} else {}
      ensures Kept(old(info), info, waiting)
    {
      hide Placed, Counted, Total, Kept, Serving;
      KeptSelf(info, waiting);
      if s in up {
        return;
      }
      if probe.Some? {
        ghost var _ := Finish(probe.value);
      }
      ServingChange(ring, perServer.Keys, up, good, s);
      up, good := up + {s}, good + 1;
    }

    /** One request of a bucket in nameserver_failed: if it has not been sent and is with s, it goes
        to the next server that is up. */
    method Reassign(x: nat, s: nat, unsent: set<nat>, ghost info0: map<nat, Info>, ghost seen: set<nat>)
      requires Valid() && up != {} && s !in up && x in info && info[x].ns != NONE
      requires Moved(info0, info, up, s, unsent * seen)
      modifies `info, `perServer, `ring
      ensures Valid() && perServer.Keys == old(perServer.Keys) && Moved(info0, info, up, s, unsent * (seen + {x}))
    {
      hide Placed, Counted, Total, Serving;
      if x in unsent && info[x].ns == s {
        var t, _ := PickServer();
        SwapServer(x, t);
      }
    }

    /** nameserver_failed: requests that have not been sent to s yet go to servers that are up, if
        there are any left; the others stay with s. */
    method NameserverFailed(s: nat, unsent: set<nat>)
      requires Valid() && s in perServer
      modifies `info, `perServer, `ring, `up, `good
      ensures Valid() && up == old(up) - {s} && perServer.Keys == old(perServer.Keys)
      ensures if s in old(up) && up != {} then Moved(old(info), info, up, s, unsent) else info == old(info)
    {
      hide Placed, Counted, Total, Moved, Serving;
      if s !in up {
        return;
      }
      ServingChange(ring, perServer.Keys, up, good, s);
      up, good := up - {s}, good - 1;
      if good == 0 {
        return;
      }
      ghost var info0 := info;
      ghost var seen: set<nat> := {};
      NobodyMoved(info, up, s, unsent);
      var i := 0;
      while i < |heads|
        modifies `info, `perServer, `ring
        invariant i <= |heads| && Valid() && perServer.Keys == old(perServer.Keys)
        invariant Moved(info0, info, up, s, unsent * seen) && Seen(heads, i, 0, seen)
      {
        var j := 0;
        while j < |heads[i]|
          modifies `info, `perServer, `ring
          invariant j <= |heads[i]| && Valid() && perServer.Keys == old(perServer.Keys)
          invariant Moved(info0, info, up, s, unsent * seen) && Seen(heads, i, j, seen)
        {
          var x := heads[i][j];
          InBucket(heads, waiting, info, i, j);
          Reassign(x, s, unsent, info0, seen);
          seen := seen + {x};
          j := j + 1;
        }
        i := i + 1;
      }
      MovedAll(heads, waiting, info0, info, up, s, unsent, seen);
    }

    /** evdns_base_set_max_requests_inflight: rehashes the inflight requests. */
    method SetMaxInflight(max: int, memory: bool) returns (ok: bool)
      requires Valid()
      modifies `heads, `maxInflight
      ensures Valid() && ok == memory
      ensures ok ==> maxInflight == (if max < 1 then 1 else max) && |heads| == (maxInflight + 4) / 5
      ensures !ok ==> heads == old(heads) && maxInflight == old(maxInflight)
    {
      hide Placed, Total, Rehashing, Counted, Serving;
      var m := if max < 1 then 1 else max;
      var n := (m + 4) / 5;
      if !memory {
        return false;
      }
      var rest, table := heads, seq(n, _ => []);
      ghost var moved: set<nat> := {};
      NothingMoved(heads, waiting, info, table);
      var i := 0;
      while i < |rest|
        invariant 0 <= i <= |rest| == |heads| && |table| == n && Rehashing(rest, table, info, moved)
        invariant Total(rest) + Total(table) == Total(heads) && heads == old(heads) && maxInflight == old(maxInflight)
        invariant forall b :: 0 <= b < i ==> rest[b] == []
      {
        while rest[i] != []
          invariant i < |rest| == |heads| && |table| == n && Rehashing(rest, table, info, moved)
          invariant Total(rest) + Total(table) == Total(heads) && heads == old(heads) && maxInflight == old(maxInflight)
          invariant forall b :: 0 <= b < i ==> rest[b] == []
          decreases |rest[i]|
        {
          var x := rest[i][0];
          MoveOne(rest, table, info, moved, i);
          var b := Bucket(info[x].transId, n);
          rest := rest[i := rest[i][1..]];
          table := table[b := table[b] + [x]];
          moved := moved + {x};
        }
        i := i + 1;
      }
      AllMoved(heads, waiting, rest, table, info, moved);
      heads := table;
      maxInflight := m;
      return true;
    }
  }

  lemma ServingFacts(ring: seq<nat>, servers: set<int>, up: set<nat>, good: int)
    requires Serving(ring, servers, up, good)
    ensures (ring == [] <==> servers == {}) && good == |up| && (up == {} <==> |up| == 0)
    ensures (forall i :: 0 <= i < |ring| ==> ring[i] in servers) && forall s :: s in up ==> s in ring
  {
    forall i | 0 <= i < |ring|
      ensures ring[i] in servers
    {
      assert ring[i] in ring;
    }
    if ring == [] {
      assert forall s :: s !in servers;
    } else {
      assert ring[0] in servers;
    }
  }

  lemma ServingTurned(ring: seq<nat>, servers: set<int>, up: set<nat>, good: int, k: nat)
    requires Serving(ring, servers, up, good) && k <= |ring|
    ensures Serving(ring[k..] + ring[..k], servers, up, good)
  {
    Turned(ring, k);
  }

  /** A server that comes up or goes down is counted. */
  lemma ServingChange(ring: seq<nat>, servers: set<int>, up: set<nat>, good: int, s: nat)
    requires Serving(ring, servers, up, good) && s in servers
    ensures s !in up ==> Serving(ring, servers, up + {s}, good + 1)
    ensures s in up ==> Serving(ring, servers, up - {s}, good - 1)
  {
  }

  /** Turning a ring changes nobody. */
  lemma Turned(ring: seq<nat>, k: nat)
    requires k <= |ring|
    ensures forall s :: s in ring[k..] + ring[..k] <==> s in ring
  {
    assert ring == ring[..k] + ring[k..];
  }

  /** Some server of the ring is up, and the first ones are not it. */
  lemma SomeUp(ring: seq<nat>, up: set<nat>, k: nat)
    requires |up| != 0 && (forall s :: s in up ==> s in ring) && k <= |ring| && forall i :: 0 <= i < k ==>
      ring[i] !in up
    ensures k < |ring|
  {
    assert up != {};
    var s :| s in up;
    var i :| 0 <= i < |ring| && ring[i] == s;
  }

  lemma SameServers(perServer: map<int, int>, s: int, n: int)
    requires s in perServer
    ensures perServer[s := n].Keys == perServer.Keys
  {
  }

  lemma ServerKnown(info: map<nat, Info>, perServer: map<int, int>, x: nat)
    requires Counted(info, perServer) && x in info && info[x].ns != NONE
    ensures info[x].ns in perServer
  {
  }

  lemma NoneNoServer(info: map<nat, Info>, perServer: map<int, int>)
    requires Counted(info, perServer)
    ensures NONE !in perServer
  {
  }

  lemma HasBuckets(heads: seq<seq<nat>>, waiting: seq<nat>, info: map<nat, Info>)
    requires Placed(heads, waiting, info)
    ensures 0 < |heads|
  {
  }

  /** The unsent requests of s are with servers that are up; nothing else has changed. */
  ghost predicate Moved(info0: map<nat, Info>, info: map<nat, Info>, up: set<nat>, s: nat, unsent: set<nat>) {
    && info.Keys == info0.Keys
    && forall x :: x in info0 ==>
         if x in unsent && info0[x].ns == s then
           0 <= info[x].ns && info[x].ns in up && info[x] == info0[x].(ns := info[x].ns)
         else info[x] == info0[x]
  }

  lemma NobodyMoved(info: map<nat, Info>, up: set<nat>, s: nat, unsent: set<nat>)
    ensures Moved(info, info, up, s, unsent * {})
  {
  }

  /** The first i buckets and j requests of the next have been seen. */
  ghost predicate Seen(heads: seq<seq<nat>>, i: nat, j: nat, seen: set<nat>) {
    && (forall b, x :: 0 <= b < i && b < |heads| && x in heads[b] ==> x in seen)
    && forall k :: 0 <= k < j && i < |heads| && k < |heads[i]| ==> heads[i][k] in seen
  }

  lemma InBucket(heads: seq<seq<nat>>, waiting: seq<nat>, info: map<nat, Info>, b: nat, k: nat)
    requires Placed(heads, waiting, info) && b < |heads| && k < |heads[b]|
    ensures heads[b][k] in info && info[heads[b][k]].ns != NONE
  {
    assert heads[b][k] in heads[b];
  }

  /** When all buckets have been seen, all unsent requests have been moved. */
  lemma MovedAll(heads: seq<seq<nat>>, waiting: seq<nat>, info0: map<nat, Info>, info: map<nat, Info>, up: set<nat>,
                 s: nat, unsent: set<nat>, seen: set<nat>)
    requires Placed(heads, waiting, info0) && Seen(heads, |heads|, 0, seen) && Moved(info0, info, up, s, unsent * seen)
    ensures Moved(info0, info, up, s, unsent)
  {
    hide Bucket;
    forall x | x in info0 && info0[x].ns == s
      ensures x in seen
    {
      assert x in heads[Bucket(info0[x].transId, |heads|)];
    }
  }

  /** Requests that were inflight, or still wait, are as they were. */
  ghost predicate Kept(info0: map<nat, Info>, info: map<nat, Info>, waiting: seq<nat>) {
    forall x :: x in info0 && x in info && (info0[x].ns != NONE || x in waiting) ==> info[x] == info0[x]
  }

  lemma KeptSelf(info: map<nat, Info>, waiting: seq<nat>)
    ensures Kept(info, info, waiting)
  {
  }

  lemma KeptNext(info0: map<nat, Info>, before: map<nat, Info>, info: map<nat, Info>, waiting: seq<nat>, i: Info)
    requires Kept(info0, before, waiting) && waiting != [] && waiting[0] !in waiting[1..] && waiting[0] in before
    requires before[waiting[0]].ns == NONE && info == before[waiting[0] := i]
    ensures Kept(info0, info, waiting[1..])
  {
  }

  lemma WaitingNoDup(heads: seq<seq<nat>>, waiting: seq<nat>, info: map<nat, Info>)
    requires Placed(heads, waiting, info) && waiting != []
    ensures waiting[0] !in waiting[1..]
    ensures forall x :: x in waiting[1..] ==> x in waiting
  {
  }

  lemma FirstWaiting(heads: seq<seq<nat>>, waiting: seq<nat>, info: map<nat, Info>)
    requires Placed(heads, waiting, info) && waiting != []
    ensures waiting[0] in info && info[waiting[0]].ns == NONE
  {
    assert waiting[0] in waiting;
  }

  /** The moved requests are in the new buckets, the others still in the old ones. */
  ghost predicate Rehashing(rest: seq<seq<nat>>, table: seq<seq<nat>>, info: map<nat, Info>, moved: set<nat>) {
    && 0 < |rest| && 0 < |table|
    && (forall b :: 0 <= b < |rest| ==> NoDup(rest[b])) && (forall b :: 0 <= b < |table| ==> NoDup(table[b]))
    && (forall x :: x in moved ==> x in info && info[x].ns != NONE)
    && (forall b, x :: 0 <= b < |rest| ==>
        (x in rest[b] <==> x in info && info[x].ns != NONE && Bucket(info[x].transId, |rest|) == b && x !in moved))
    && (forall b, x :: 0 <= b < |table| ==>
            (x in table[b] <==> x in moved && x in info && Bucket(info[x].transId, |table|) == b))
  }

  lemma NothingMoved(heads: seq<seq<nat>>, waiting: seq<nat>, info: map<nat, Info>, table: seq<seq<nat>>)
    requires Placed(heads, waiting, info) && 0 < |table| && forall b :: 0 <= b < |table| ==> table[b] == []
    ensures Rehashing(heads, table, info, {}) && Total(table) == 0
  {
    TotalEmpty(table);
  }

  lemma MoveOne(rest: seq<seq<nat>>, table: seq<seq<nat>>, info: map<nat, Info>, moved: set<nat>, i: nat)
    requires Rehashing(rest, table, info, moved) && i < |rest| && rest[i] != []
    ensures var x := rest[i][0];
            && x in info && 0 < |table|
            && var b := Bucket(info[x].transId, |table|);
               && Rehashing(rest[i := rest[i][1..]], table[b := table[b] + [x]], info, moved + {x})
               && Total(rest[i := rest[i][1..]]) == Total(rest) - 1
               && Total(table[b := table[b] + [x]]) == Total(table) + 1
  {
    var x := rest[i][0];
    assert x in rest[i];
    var b := Bucket(info[x].transId, |table|);
    RemovedIs(rest[i], x);
    assert Removed(rest[i], x) == rest[i][1..];
    Appended(table[b], x);
    TotalUpdate(rest, i, rest[i][1..]);
    TotalUpdate(table, b, table[b] + [x]);
  }

  lemma AllMoved(heads: seq<seq<nat>>, waiting: seq<nat>, rest: seq<seq<nat>>, table: seq<seq<nat>>, info: map<nat,
                 Info>, moved: set<nat>)
    requires Placed(heads, waiting, info) && Rehashing(rest, table, info, moved)
    requires forall b :: 0 <= b < |rest| ==> rest[b] == []
    ensures Placed(table, waiting, info) && Total(rest) == 0
  {
    TotalEmpty(rest);
    forall x | x in info && info[x].ns != NONE
      ensures x in moved
    {
      assert x !in rest[Bucket(info[x].transId, |rest|)];
    }
  }

  /** The requests that are inflight in the buckets from k on. */
  ghost function From(info: map<nat, Info>, n: nat, k: nat): set<nat>
    requires 0 < n
  {
    set x | x in info && info[x].ns != NONE && k <= Bucket(info[x].transId, n)
  }

  ghost function Elements(q: seq<nat>): (s: set<nat>)
    requires NoDup(q)
    ensures |s| == |q| && forall x :: x in s <==> x in q
  {
    if q == [] then {}
    else
      assert forall x :: x in q <==> x == q[0] || x in q[1..];
      assert q[0] !in q[1..];
      {q[0]} + Elements(q[1..])
  }

  lemma {:induction false} BucketsHoldAll(heads: seq<seq<nat>>, waiting: seq<nat>, info: map<nat, Info>, k: nat)
    requires Placed(heads, waiting, info) && k <= |heads|
    ensures Total(heads[k..]) == |From(info, |heads|, k)|
    decreases |heads| - k
  {
    if k == |heads| {
      assert From(info, |heads|, k) == {};
    } else {
      BucketsHoldAll(heads, waiting, info, k + 1);
      hide Elements;
      assert heads[k..][1..] == heads[k + 1..];
      Disjoint(Elements(heads[k]), From(info, |heads|, k + 1), From(info, |heads|, k));
    }
  }

  /** The sum of the counters of some servers. */
  ghost function Sum(perServer: map<int, int>, servers: seq<int>): int {
    if servers == [] then 0
    else (if servers[0] in perServer then perServer[servers[0]] else 0) + Sum(perServer, servers[1..])
  }

  /** The requests that have a server. */
  ghost function Flying(info: map<nat, Info>): set<nat> {
    set x | x in info && info[x].ns != NONE
  }

  ghost function WithAny(info: map<nat, Info>, servers: seq<int>): set<nat> {
    set x | x in info && info[x].ns in servers
  }

  lemma {:induction false} SumCounts(info: map<nat, Info>, perServer: map<int, int>, servers: seq<int>)
    requires Counted(info, perServer) && (forall s :: s in servers ==> s in perServer)
    requires forall i, j :: 0 <= i < j < |servers| ==> servers[i] != servers[j]
    ensures Sum(perServer, servers) == |WithAny(info, servers)|
  {
    if servers == [] {
      assert WithAny(info, servers) == {};
    } else {
      SumCounts(info, perServer, servers[1..]);
      assert forall s :: s in servers <==> s == servers[0] || s in servers[1..];
      assert WithAny(info, servers) == With(info, servers[0]) + WithAny(info, servers[1..]);
      assert servers[0] !in servers[1..];
      assert With(info, servers[0]) !! WithAny(info, servers[1..]);
    }
  }

  /** The number of inflight requests is the total length of the buckets, the sum of the
      counters of all servers, and how many requests have a server. */
  lemma Conservation(base: Base, servers: seq<int>)
    requires base.Valid() && (forall s :: s in servers <==> s in base.perServer)
    requires forall i, j :: 0 <= i < j < |servers| ==> servers[i] != servers[j]
    ensures base.inflight == Total(base.heads) == Sum(base.perServer, servers)
    ensures base.inflight == |Flying(base.info)|
    ensures base.inflight + base.waitingCount == |base.info.Keys|
  {
    hide Total, Sum, Counted;
    var info, n := base.info, |base.heads|;
    BucketsHoldAll(base.heads, base.waiting, info, 0);
    assert base.heads[0..] == base.heads;
    SumCounts(info, base.perServer, servers);
    AllFlying(info, n, base.perServer, servers);
    SplitAll(base.heads, base.waiting, info);
  }

  lemma AllFlying(info: map<nat, Info>, n: nat, perServer: map<int, int>, servers: seq<int>)
    requires 0 < n && Counted(info, perServer) && forall s :: s in servers <==> s in perServer
    ensures From(info, n, 0) == WithAny(info, servers) == Flying(info)
  {
  }

  lemma WaitingIs(heads: seq<seq<nat>>, waiting: seq<nat>, info: map<nat, Info>)
    requires Placed(heads, waiting, info)
    ensures NoDup(waiting) && forall x :: x in waiting <==> x in info && info[x].ns == NONE
  {
  }

  lemma SplitAll(heads: seq<seq<nat>>, waiting: seq<nat>, info: map<nat, Info>)
    requires Placed(heads, waiting, info)
    ensures |info.Keys| == |Flying(info)| + |waiting|
  {
    hide Placed, Elements;
    WaitingIs(heads, waiting, info);
    Disjoint(Flying(info), Elements(waiting), info.Keys);
  }

  lemma Disjoint(a: set<nat>, b: set<nat>, all: set<nat>)
    requires (forall x :: x in a ==> x !in b) && forall x :: x in all <==> x in a || x in b
    ensures |all| == |a| + |b|
  {
    assert all == a + b && a !! b;
  }
}
