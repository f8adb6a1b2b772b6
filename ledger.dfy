/**
 * The recipient ledger of one delivery request: the recipients with their
 * finalisation marker (the queue-file offset; zero means finalised), the
 * trace of calls into the delivery-status collaborators, and the pass over
 * the recipient list that smtp_site_fail, smtp_mesg_fail and
 * smtp_stream_except share.
 */
module Ledger {
  import opened Words

  /** RECIPIENT: `offset == 0` marks a recipient that is already finalised. */
  datatype Recipient = Recipient(origAddr: string, address: string, offset: int)

  /** Which collaborator records the recipient's status: defer_append or bounce_append. */
  datatype Action = Defer | Bounce

  /**
   * One call into a collaborator. `Append` is a defer or bounce call for the
   * recipient at `index` with the arguments it was given; `Completed` is a
   * deliver_completed call with the recipient's queue-file offset.
   */
  datatype Event =
    | Append(action: Action, index: nat, rcpt: Recipient, host: string, reason: string)
    | Completed(index: nat, offset: int)

  /** What to count in a trace. */
  datatype Query = CallOf(action: Action, index: nat) | CompletionOf(index: nat)

  predicate Matches(e: Event, q: Query)
  {
    match q
    case CallOf(a, i) => e.Append? && e.action == a && e.index == i
    case CompletionOf(i) => e.Completed? && e.index == i
  }

  /** The number of events in `log` that match `q`. */
  function Count(log: seq<Event>, q: Query): nat
  {
    if log == [] then 0 else (if Matches(log[0], q) then 1 else 0) + Count(log[1..], q)
  }

  lemma {:induction false} CountConcat(x: seq<Event>, y: seq<Event>, q: Query)
    ensures Count(x + y, q) == Count(x, q) + Count(y, q)
  {
    if x == [] {
      assert x + y == y;
    } else {
      assert (x + y)[1..] == x[1..] + y;
      CountConcat(x[1..], y, q);
    }
  }

  lemma CountOne(e: Event, q: Query)
    ensures Count([e], q) == if Matches(e, q) then 1 else 0
  {
    assert [e][1..] == [];
  }

  /**
   * One pass over the recipient list: which collaborator is called, whether
   * a zero result finalises the recipient (clears its offset and calls
   * deliver_completed), the host name and reason handed to the collaborator,
   * and the result the collaborator returns for the recipient at each index
   * (the pass calls it at most once per recipient).
   */
  datatype Sweep = Sweep(action: Action, completes: bool, host: string, reason: string,
                         replies: seq<bv32>)

  /**
   * The state of a pass: the recipient list and the calls made so far. (The
   * status word the pass ORs its call results into is StatusUpTo below.)
   */
  datatype Tally = Tally(rcpts: seq<Recipient>, events: seq<Event>)

  /** The collaborator calls a pass makes for recipient `r` at index `k`. */
  function StepEvents(r: Recipient, k: nat, p: Sweep): seq<Event>
    requires k < |p.replies|
  {
    if r.offset == 0 then []
    else [Append(p.action, k, r, p.host, p.reason)]
         + (if p.completes && p.replies[k] == 0 then [Completed(k, r.offset)] else [])
  }

  /** One iteration of the recipient loop, at index `k`. */
  function Step(t: Tally, k: nat, p: Sweep): Tally
    requires k < |t.rcpts| && k < |p.replies|
  {
    var r := t.rcpts[k];
    if r.offset == 0 then t
    else
      var rcpts := if p.completes && p.replies[k] == 0 then t.rcpts[k := r.(offset := 0)] else t.rcpts;
      Tally(rcpts, t.events + StepEvents(r, k, p))
  }

  /** The pass after the recipients at indexes `0 .. k-1` have been visited. */
  function SweepUpTo(rs: seq<Recipient>, k: nat, p: Sweep): (t: Tally)
    requires k <= |rs| == |p.replies|
    ensures |t.rcpts| == |rs|
    decreases k
  {
    if k == 0 then Tally(rs, [])
    else Step(SweepUpTo(rs, k - 1, p), k - 1, p)
  }

  /** Whether the pass finalises the recipient at index `i` of the original list. */
  predicate Finalises(rs: seq<Recipient>, i: nat, p: Sweep)
    requires i < |rs| == |p.replies|
  {
    rs[i].offset != 0 && p.completes && p.replies[i] == 0
  }

  /**
   * The status word after the recipients at indexes `0 .. k-1` have been
   * visited: `status` with the result of each call for a pending recipient
   * ORed in.
   */
  function StatusUpTo(status: bv32, rs: seq<Recipient>, k: nat, replies: seq<bv32>): bv32
    requires k <= |rs| == |replies|
  {
    if k == 0 then status
    else if rs[k - 1].offset == 0 then StatusUpTo(status, rs, k - 1, replies)
    else Or(StatusUpTo(status, rs, k - 1, replies), replies[k - 1])
  }

  predicate NonePending(rs: seq<Recipient>)
  {
    forall i :: 0 <= i < |rs| ==> rs[i].offset == 0
  }

  /**
   * The pass never sees its own changes: recipient `i` ends up finalised
   * exactly when it was pending in the ORIGINAL list, was visited, and its
   * call succeeded; every other recipient, and in particular every
   * recipient that was already finalised, is left as it was.
   */
  lemma {:induction false} SweepRecipients(rs: seq<Recipient>, k: nat, p: Sweep)
    requires k <= |rs| == |p.replies|
    ensures forall i :: 0 <= i < |rs| ==>
              SweepUpTo(rs, k, p).rcpts[i]
              == if i < k && Finalises(rs, i, p) then rs[i].(offset := 0) else rs[i]
  {
    if k > 0 {
      SweepRecipients(rs, k - 1, p);
    }
  }

  /** The events of one step, counted. */
  lemma StepEventsCount(r: Recipient, k: nat, p: Sweep, q: Query)
    requires k < |p.replies|
    ensures Count(StepEvents(r, k, p), q)
            == (if r.offset != 0 && Matches(Append(p.action, k, r, p.host, p.reason), q) then 1 else 0)
               + (if r.offset != 0 && p.completes && p.replies[k] == 0
                     && Matches(Completed(k, r.offset), q) then 1 else 0)
  {
    if r.offset != 0 {
      var a := [Append(p.action, k, r, p.host, p.reason)];
      var c := if p.completes && p.replies[k] == 0 then [Completed(k, r.offset)] else [];
      CountConcat(a, c, q);
      assert a[1..] == [];
      if c != [] {
        assert c[1..] == [];
      }
    }
  }

  /**
   * Every recipient that was pending gets exactly one call, of the pass's
   * action, and none of the other action; a recipient that was already
   * finalised gets none.
   */
  lemma {:induction false} SweepCallCounts(rs: seq<Recipient>, k: nat, p: Sweep)
    requires k <= |rs| == |p.replies|
    ensures forall a: Action, i: nat :: Count(SweepUpTo(rs, k, p).events, CallOf(a, i))
              == if a == p.action && i < k && rs[i].offset != 0 then 1 else 0
  {
    if k > 0 {
      var prev := SweepUpTo(rs, k - 1, p);
      assert prev.rcpts[k - 1] == rs[k - 1] by {
        SweepRecipients(rs, k - 1, p);
      }
      SweepCallCounts(rs, k - 1, p);
      var ev := StepEvents(rs[k - 1], k - 1, p);
      assert SweepUpTo(rs, k, p).events == prev.events + ev;
      forall a: Action, i: nat
        ensures Count(SweepUpTo(rs, k, p).events, CallOf(a, i))
                == if a == p.action && i < k && rs[i].offset != 0 then 1 else 0
      {
        CountConcat(prev.events, ev, CallOf(a, i));
        StepEventsCount(rs[k - 1], k - 1, p, CallOf(a, i));
      }
    }
  }

  /** Exactly the recipients the pass finalises get one deliver_completed call each. */
  lemma {:induction false} SweepCompletionCounts(rs: seq<Recipient>, k: nat, p: Sweep)
    requires k <= |rs| == |p.replies|
    ensures forall i: nat :: Count(SweepUpTo(rs, k, p).events, CompletionOf(i))
              == if i < k && Finalises(rs, i, p) then 1 else 0
  {
    if k > 0 {
      var prev := SweepUpTo(rs, k - 1, p);
      assert prev.rcpts[k - 1] == rs[k - 1] by {
        SweepRecipients(rs, k - 1, p);
      }
      SweepCompletionCounts(rs, k - 1, p);
      var ev := StepEvents(rs[k - 1], k - 1, p);
      assert SweepUpTo(rs, k, p).events == prev.events + ev;
      forall i: nat
        ensures Count(SweepUpTo(rs, k, p).events, CompletionOf(i))
                == if i < k && Finalises(rs, i, p) then 1 else 0
      {
        CountConcat(prev.events, ev, CompletionOf(i));
        StepEventsCount(rs[k - 1], k - 1, p, CompletionOf(i));
      }
    }
  }

  /** What a call made by pass `p` over the original list `rs` looks like. */
  predicate Fits(e: Event, rs: seq<Recipient>, p: Sweep)
  {
    match e
    case Append(a, i, r, h, why) =>
      i < |rs| && r == rs[i] && r.offset != 0 && a == p.action && h == p.host && why == p.reason
    case Completed(i, off) =>
      i < |rs| == |p.replies| && off == rs[i].offset && Finalises(rs, i, p)
  }

  /** The calls are made in recipient order. */
  predicate InRecipientOrder(evs: seq<Event>)
  {
    forall j, j' :: 0 <= j < j' < |evs| ==> evs[j].index <= evs[j'].index
  }

  /** Each deliver_completed call comes right after the defer or bounce call for the same recipient. */
  predicate CompletionsFollowCalls(evs: seq<Event>, rs: seq<Recipient>, p: Sweep)
  {
    forall j :: 0 <= j < |evs| && evs[j].Completed? ==>
      0 < j && evs[j].index < |rs|
      && evs[j - 1] == Append(p.action, evs[j].index, rs[evs[j].index], p.host, p.reason)
  }

  /**
   * Every call carries the recipient's original addresses and offset and
   * the pass's host and reason, and concerns a recipient already visited.
   */
  lemma {:induction false} SweepEvents(rs: seq<Recipient>, k: nat, p: Sweep)
    requires k <= |rs| == |p.replies|
    ensures forall e :: e in SweepUpTo(rs, k, p).events ==> e.index < k && Fits(e, rs, p)
  {
    if k > 0 {
      var prev := SweepUpTo(rs, k - 1, p);
      assert prev.rcpts[k - 1] == rs[k - 1] by {
        SweepRecipients(rs, k - 1, p);
      }
      SweepEvents(rs, k - 1, p);
      var ev := StepEvents(rs[k - 1], k - 1, p);
      assert SweepUpTo(rs, k, p).events == prev.events + ev;
      forall e | e in ev ensures e.index == k - 1 && Fits(e, rs, p) {
      }
    }
  }

  /** The calls are made in recipient order. */
  lemma {:induction false} SweepOrder(rs: seq<Recipient>, k: nat, p: Sweep)
    requires k <= |rs| == |p.replies|
    ensures InRecipientOrder(SweepUpTo(rs, k, p).events)
  {
    if k > 0 {
      var prev := SweepUpTo(rs, k - 1, p);
      assert prev.rcpts[k - 1] == rs[k - 1] by {
        SweepRecipients(rs, k - 1, p);
      }
      SweepOrder(rs, k - 1, p);
      SweepEvents(rs, k - 1, p);
      var ev := StepEvents(rs[k - 1], k - 1, p);
      var evs := SweepUpTo(rs, k, p).events;
      assert evs == prev.events + ev;
      forall j, j' | 0 <= j < j' < |evs| ensures evs[j].index <= evs[j'].index {
        if j' >= |prev.events| {
          assert evs[j'] == ev[j' - |prev.events|];
          if j >= |prev.events| {
            assert evs[j] == ev[j - |prev.events|];
          } else {
            assert evs[j] == prev.events[j];
            assert evs[j] in prev.events;
          }
        } else {
          assert evs[j] == prev.events[j] && evs[j'] == prev.events[j'];
        }
      }
    }
  }

  /** A deliver_completed call always follows the successful call for the same recipient. */
  lemma {:induction false} SweepCompletions(rs: seq<Recipient>, k: nat, p: Sweep)
    requires k <= |rs| == |p.replies|
    ensures CompletionsFollowCalls(SweepUpTo(rs, k, p).events, rs, p)
  {
    if k > 0 {
      var prev := SweepUpTo(rs, k - 1, p);
      assert prev.rcpts[k - 1] == rs[k - 1] by {
        SweepRecipients(rs, k - 1, p);
      }
      SweepCompletions(rs, k - 1, p);
      var ev := StepEvents(rs[k - 1], k - 1, p);
      var evs := SweepUpTo(rs, k, p).events;
      assert evs == prev.events + ev;
      forall j | 0 <= j < |evs| && evs[j].Completed?
        ensures 0 < j && evs[j].index < |rs|
                && evs[j - 1] == Append(p.action, evs[j].index, rs[evs[j].index], p.host, p.reason)
      {
        if j >= |prev.events| {
          assert ev[j - |prev.events|] == evs[j];
          assert j - |prev.events| == 1;
        } else {
          assert prev.events[j] == evs[j];
          assert prev.events[j - 1] == evs[j - 1];
        }
      }
    }
  }

  /**
   * The status ends up zero exactly when it started zero and every call made
   * for a pending recipient returned zero.
   */
  lemma {:induction false} StatusUpToZero(status: bv32, rs: seq<Recipient>, k: nat, replies: seq<bv32>)
    requires k <= |rs| == |replies|
    ensures StatusUpTo(status, rs, k, replies) == 0
            <==> status == 0 && forall i :: 0 <= i < k && rs[i].offset != 0 ==> replies[i] == 0
  {
    if k > 0 {
      StatusUpToZero(status, rs, k - 1, replies);
    }
  }

  /** No bit of the starting status is ever cleared. */
  lemma {:induction false} StatusUpToKeeps(status: bv32, rs: seq<Recipient>, k: nat, replies: seq<bv32>)
    requires k <= |rs| == |replies|
    ensures Covers(StatusUpTo(status, rs, k, replies), status)
  {
    if k > 0 {
      StatusUpToKeeps(status, rs, k - 1, replies);
    }
  }

  /** Every bit of every result returned for a pending recipient ends up in the status. */
  lemma {:induction false} StatusUpToCovers(status: bv32, rs: seq<Recipient>, k: nat, replies: seq<bv32>, i: nat)
    requires k <= |rs| == |replies| && i < k && rs[i].offset != 0
    ensures Covers(StatusUpTo(status, rs, k, replies), replies[i])
  {
    if i < k - 1 {
      StatusUpToCovers(status, rs, k - 1, replies, i);
    }
  }

  /** The status word stays below any word that covers the old status and every pending result. */
  lemma {:induction false} StatusUpToLeast(status: bv32, rs: seq<Recipient>, k: nat, replies: seq<bv32>,
                                           m: bv32)
    requires k <= |rs| == |replies|
    requires Covers(m, status)
    requires forall i :: 0 <= i < k && rs[i].offset != 0 ==> Covers(m, replies[i])
    ensures Covers(m, StatusUpTo(status, rs, k, replies))
  {
    if k > 0 {
      StatusUpToLeast(status, rs, k - 1, replies, m);
      if rs[k - 1].offset != 0 {
        OrLeast(StatusUpTo(status, rs, k - 1, replies), replies[k - 1], m);
      }
    }
  }

  /** Every pending recipient's reply is covered by the final status word. */
  lemma StatusUpToCoversAll(status: bv32, rs: seq<Recipient>, k: nat, replies: seq<bv32>)
    requires k <= |rs| == |replies|
    ensures forall i :: 0 <= i < k && rs[i].offset != 0
              ==> Covers(StatusUpTo(status, rs, k, replies), replies[i])
  {
    forall i | 0 <= i < k && rs[i].offset != 0
      ensures Covers(StatusUpTo(status, rs, k, replies), replies[i])
    {
      StatusUpToCovers(status, rs, k, replies, i);
    }
  }

  /**
   * The ledger of one delivery request against its initial recipient list:
   * each recipient is either as it started or finalised (only its offset
   * cleared), and deliver_completed has been called exactly once for each
   * recipient that started pending and is now finalised, and never for any
   * other index. In particular no recipient is finalised twice.
   */
  ghost predicate LedgerOk(init: seq<Recipient>, rcpts: seq<Recipient>, log: seq<Event>)
  {
    |rcpts| == |init|
    && (forall i :: 0 <= i < |init| ==> rcpts[i] == init[i] || rcpts[i] == init[i].(offset := 0))
    && (forall i: nat :: Count(log, CompletionOf(i))
          == if i < |init| && init[i].offset != 0 && rcpts[i].offset == 0 then 1 else 0)
  }

  /** A full pass over the recipient list keeps the ledger consistent. */
  lemma SweepKeepsLedger(init: seq<Recipient>, rs: seq<Recipient>, log: seq<Event>, p: Sweep)
    requires LedgerOk(init, rs, log) && |p.replies| == |rs|
    ensures var t := SweepUpTo(rs, |rs|, p);
            LedgerOk(init, t.rcpts, log + t.events)
  {
    var t := SweepUpTo(rs, |rs|, p);
    SweepRecipients(rs, |rs|, p);
    SweepCompletionCounts(rs, |rs|, p);
    forall i: nat
      ensures Count(log + t.events, CompletionOf(i))
              == if i < |init| && init[i].offset != 0 && t.rcpts[i].offset == 0 then 1 else 0
    {
      CountConcat(log, t.events, CompletionOf(i));
    }
  }
}
