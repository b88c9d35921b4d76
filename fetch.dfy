/** Collecting the water-level samples of a date range from the per-chunk
    replies of the registry (`tides.extend(...)` in `_get_tides` of
    tide_api/lib.py and in `get_tides_between_dates` of tide_tools/lib.py). */
module Fetch {
  import opened Common
  import Partition

  /** A reply per chunk request: the samples, or None when the request failed. */
  type Reply = Option<seq<Measurement>>

  predicate AllSucceeded(replies: seq<Reply>) {
    forall i :: 0 <= i < |replies| ==> replies[i].Some?
  }

  /** The samples of the replies, in request order; the first failed request
      aborts the whole fetch. */
  function Gathered(replies: seq<Reply>): (r: Result<seq<Measurement>>)
    ensures r.Failure? <==> !AllSucceeded(replies)
    ensures r.Failure? ==> r.error == RequestFailed
    ensures r.Success? ==> forall i :: 0 <= i < |replies| ==> multiset(replies[i].value) <= multiset(r.value)
  {
    if AllSucceeded(replies) then
      var parts := seq(|replies|, i requires 0 <= i < |replies| => replies[i].value);
      forall i | 0 <= i < |replies| ensures multiset(replies[i].value) <= multiset(Partition.Concat(parts)) {
        ConcatContains(parts, i);
      }
      Success(Partition.Concat(parts))
    else Failure(RequestFailed)
  }

  lemma {:induction false} ConcatContains<T>(parts: seq<seq<T>>, i: nat)
    requires i < |parts|
    ensures multiset(parts[i]) <= multiset(Partition.Concat(parts))
  {
    if i > 0 {
      ConcatContains(parts[1..], i - 1);
    }
  }

  lemma {:induction false} ConcatSnoc<T>(parts: seq<seq<T>>, a: seq<T>)
    ensures Partition.Concat(parts + [a]) == Partition.Concat(parts) + a
  {
    if parts == [] {
      assert [] + [a] == [a];
    } else {
      assert (parts + [a])[1..] == parts[1..] + [a];
      ConcatSnoc(parts[1..], a);
    }
  }

  /** Gathering is the extend loop: one more successful reply keeps the
      outcome and appends that reply's samples after the earlier ones. */
  lemma GatheredSnoc(replies: seq<Reply>, a: seq<Measurement>)
    ensures Gathered(replies + [Some(a)]).Success? <==> Gathered(replies).Success?
    ensures Gathered(replies).Success? ==> Gathered(replies + [Some(a)]).value == Gathered(replies).value + a
  {
    var more := replies + [Some(a)];
    assert forall i :: 0 <= i < |replies| ==> more[i] == replies[i];
    if AllSucceeded(replies) {
      var parts := seq(|replies|, i requires 0 <= i < |replies| => replies[i].value);
      assert seq(|more|, i requires 0 <= i < |more| => more[i].value) == parts + [a];
      ConcatSnoc(parts, a);
    } else {
      var j :| 0 <= j < |replies| && replies[j].None?;
      assert more[j].None?;
    }
  }

  /** The request loop: extend the sample list reply by reply, raising at the
      first failed request. */
  method GatherReplies(replies: seq<Reply>) returns (r: Result<seq<Measurement>>)
    ensures r == Gathered(replies)
  {
    var tides: seq<Measurement> := [];
    ghost var parts: seq<seq<Measurement>> := [];
    var k := 0;
    while k < |replies|
      invariant 0 <= k <= |replies| && |parts| == k
      invariant forall i :: 0 <= i < k ==> replies[i].Some? && parts[i] == replies[i].value
      invariant tides == Partition.Concat(parts)
    {
      if replies[k].None? {
        return Failure(RequestFailed);
      }
      ConcatSnoc(parts, replies[k].value);
      tides := tides + replies[k].value;
      parts := parts + [replies[k].value];
      k := k + 1;
    }
    assert parts == seq(|replies|, i requires 0 <= i < |replies| => replies[i].value);
    r := Success(tides);
  }
}
