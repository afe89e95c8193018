/**
 * The scheduler of periodic identifiers (core/uds_periodic.c) as a map from identifiers to
 * intervals: what each call does to it, in every state that a run reaches.
 */
module PeriodicEffects {
  import opened Types
  import opened Periodic

  /** The identifier is sent every ms milliseconds. */
  predicate Has(s: State, id: u8, ms: nat) {
    exists i :: 0 <= i < 8 && s.slots[i].active && s.slots[i].id == id && s.slots[i].interval == ms
  }

  predicate HasAny(s: State, id: u8) {
    exists i :: 0 <= i < 8 && s.slots[i].active && s.slots[i].id == id
  }

  /** The transmission modes: 3 is fast, 2 medium, and any other is taken for slow. */
  function Millis(mode: u8): nat {
    if mode == 3 then 10 else if mode == 2 then 100 else 1000
  }

  /** Eight other identifiers are being sent. */
  predicate FullOfOthers(s: State, id: u8) {
    forall i :: 0 <= i < 8 ==> s.slots[i].active && s.slots[i].id != id
  }

  /** The same slot contents but for slot k, which holds b. */
  lemma Replaced(s: State, t: State, k: nat, b: Sub, id: u8, ms: nat)
    requires Inv(s) && k < 8 && t.slots == s.slots[k := b]
    requires forall j :: 0 <= j < 8 && j != k ==> !(s.slots[j].active && s.slots[j].id == b.id)
    requires s.slots[k].active ==> s.slots[k].id == b.id
    ensures Has(t, id, ms) <==> if b.active && id == b.id then ms == b.interval else id != b.id && Has(s, id, ms)
  {
    hide Inv;
    if Has(t, id, ms) {
      var i :| 0 <= i < 8 && t.slots[i].active && t.slots[i].id == id && t.slots[i].interval == ms;
      assert i != k ==> s.slots[i] == t.slots[i];
    }
    if id != b.id && Has(s, id, ms) {
      var i :| 0 <= i < 8 && s.slots[i].active && s.slots[i].id == id && s.slots[i].interval == ms;
      assert t.slots[i] == s.slots[i];
    }
    if b.active && id == b.id && ms == b.interval {
      assert t.slots[k] == b;
    }
  }

  /**
   * A subscription is granted unless eight others are active. It then has the interval of
   * its mode, whether it is new or renewed, and all others keep theirs.
   */
  lemma SubscribeEffect(s: State, id: u8, mode: u8)
    requires Inv(s)
    ensures var (t, status) := AfterSubscribe(s, id, mode);
      && (FullOfOthers(s, id) ==> t == s && status == ErrRequestOutOfRange)
      && (!FullOfOthers(s, id) ==>
            && status == Ok && t.lastId == s.lastId && t.lastValid == s.lastValid
            && forall x, ms :: Has(t, x, ms) <==> if x == id then ms == Millis(mode) else Has(s, x, ms))
  {
    hide Inv, FindSlot, FindFree, Has;
    SubscribeKeepsInv(s, id, mode);
    InvMeans(s, id);
    var t := AfterSubscribe(s, id, mode).0;
    var k := FindSlot(s.slots, id, 0);
    var i := if k < 8 then k else FindFree(s.slots, 0);
    if !FullOfOthers(s, id) {
      forall x, ms
        ensures Has(t, x, ms) <==> if x == id then ms == Millis(mode) else Has(s, x, ms)
      {
        if k < 8 {
          Replaced(s, t, k, t.slots[k], x, ms);
        } else {
          Added(s, t, i, x, ms);
        }
      }
    }
  }

  /** A free slot that is taken adds one identifier. */
  lemma Added(s: State, t: State, k: nat, id: u8, ms: nat)
    requires k < 8 && !s.slots[k].active && t.slots == s.slots[k := t.slots[k]] && t.slots[k].active
    requires forall j :: 0 <= j < 8 ==> !(s.slots[j].active && s.slots[j].id == t.slots[k].id)
    ensures Has(t, id, ms) <==> if id == t.slots[k].id then ms == t.slots[k].interval else Has(s, id, ms)
  {
    if Has(t, id, ms) {
      var i :| 0 <= i < 8 && t.slots[i].active && t.slots[i].id == id && t.slots[i].interval == ms;
      assert i != k ==> s.slots[i] == t.slots[i];
    }
    if id != t.slots[k].id && Has(s, id, ms) {
      var i :| 0 <= i < 8 && s.slots[i].active && s.slots[i].id == id && s.slots[i].interval == ms;
      assert t.slots[i] == s.slots[i];
    }
  }

  /** Exactly the identifier given is no longer sent. */
  lemma UnsubscribeEffect(s: State, id: u8)
    requires Inv(s)
    ensures var t := AfterUnsubscribe(s, id);
      forall x, ms :: Has(t, x, ms) <==> x != id && Has(s, x, ms)
  {
    hide Inv, FindSlot;
    InvMeans(s, id);
    var t, k := AfterUnsubscribe(s, id), FindSlot(s.slots, id, 0);
    forall x, ms
      ensures Has(t, x, ms) <==> x != id && Has(s, x, ms)
    {
      if Has(t, x, ms) {
        var i :| 0 <= i < 8 && t.slots[i].active && t.slots[i].id == x && t.slots[i].interval == ms;
        assert i != k && s.slots[i] == t.slots[i];
      }
      if x != id && Has(s, x, ms) {
        var i :| 0 <= i < 8 && s.slots[i].active && s.slots[i].id == x && s.slots[i].interval == ms;
        assert i != k && t.slots[i] == s.slots[i];
      }
    }
  }

  /** Nothing is sent any more, and nothing can be requeued. */
  lemma CancelEffect(s: State)
    ensures var t := AfterCancelAll(s); !t.lastValid && t.count == 0 && forall x, ms :: !Has(t, x, ms)
  {}

  /** Slots that differ only in what is due and how far their counters are. */
  predicate SameSubscriptions(s: State, t: State) {
    forall i :: 0 <= i < 8 ==> t.slots[i].active == s.slots[i].active && t.slots[i].id == s.slots[i].id &&
                               t.slots[i].interval == s.slots[i].interval
  }

  lemma SameHas(s: State, t: State)
    requires SameSubscriptions(s, t)
    ensures forall x, ms :: Has(t, x, ms) <==> Has(s, x, ms)
  {}

  /** A millisecond: every counter one lower, or reloaded and its identifier due. */
  lemma TickEffect(s: State)
    requires Inv(s)
    ensures var t := AfterTick(s);
      && (forall x, ms :: Has(t, x, ms) <==> Has(s, x, ms))
      && t.count == s.count && t.lastId == s.lastId && t.lastValid == s.lastValid
      && forall i :: 0 <= i < 8 && s.slots[i].active ==>
           if s.slots[i].counter == 1 then t.slots[i].due && t.slots[i].counter == t.slots[i].interval
           else t.slots[i].due == s.slots[i].due && t.slots[i].counter == s.slots[i].counter - 1
  {
    SameHas(s, AfterTick(s));
  }

  /** A requeue makes the identifier popped last due again, once, if it is still subscribed. */
  lemma RequeueEffect(s: State)
    requires Inv(s)
    ensures var (t, status) := AfterRequeue(s);
      && status == (if s.lastValid && HasAny(s, s.lastId) then Ok else ErrNotFound)
      && !t.lastValid && (forall x, ms :: Has(t, x, ms) <==> Has(s, x, ms))
      && forall i :: 0 <= i < 8 ==>
           t.slots[i] == if status == Ok && s.slots[i].active && s.slots[i].id == s.lastId then s.slots[i].(due := true)
                         else s.slots[i]
  {
    hide Inv, FindSlot, Has;
    InvMeans(s, s.lastId);
    SameHas(s, AfterRequeue(s).0);
  }

  /** What one search makes of the slot i: k is where it stopped. */
  lemma PopEffect(s: State, readings: u8 -> Reading)
    requires Inv(s)
    ensures var (t, f) := PopFrom(s, 0, readings);
      && (f == None <==>
            forall i :: 0 <= i < 8 && s.slots[i].active && s.slots[i].due ==> !readings(s.slots[i].id).Data?)
      && (f.Some? ==> exists k :: FirstReadable(s, readings, k) && IsPopped(s, readings, k, t, f))
      && (forall x, ms :: Has(t, x, ms) ==> Has(s, x, ms))
      && (forall x, ms :: Has(s, x, ms) && !readings(x).Denied? ==> Has(t, x, ms))
  {
    hide Inv, PopFrom, Has, StopAt;
    var (t, f) := PopFrom(s, 0, readings);
    var k := StopAt(s.slots, 0, readings);
    PopServes(s, 0, readings);
    StopIsFirst(s.slots, 0, readings);
    if k < 8 {
      assert FirstReadable(s, readings, k) && IsPopped(s, readings, k, t, f);
    }
    forall x, ms
      ensures Has(t, x, ms) ==> Has(s, x, ms)
      ensures Has(s, x, ms) && !readings(x).Denied? ==> Has(t, x, ms)
    {
      ServedHas(s, t, readings, k, x, ms);
    }
  }

  /** Slot k is the first that is due and can be read. */
  predicate FirstReadable(s: State, readings: u8 -> Reading, k: nat) {
    k < 8 && s.slots[k].active && s.slots[k].due && readings(s.slots[k].id).Data? &&
    forall i :: 0 <= i < k && s.slots[i].active && s.slots[i].due ==> !readings(s.slots[i].id).Data?
  }

  /** The frame of slot k, which is remembered for a requeue. */
  predicate IsPopped(s: State, readings: u8 -> Reading, k: nat, t: State, f: Option<frame>)
    requires FirstReadable(s, readings, k)
  {
    f == Some([s.slots[k].id] + readings(s.slots[k].id).bytes) && t.lastId == s.slots[k].id && t.lastValid &&
    !t.slots[k].due
  }

  /** A search that finds nothing to send ends every due subscription whose access is denied. */
  lemma DeniedGone(s: State, readings: u8 -> Reading, i: nat)
    requires Inv(s) && PopFrom(s, 0, readings).1 == None
    requires i < 8 && s.slots[i].active && s.slots[i].due && readings(s.slots[i].id).Denied?
    ensures !HasAny(PopFrom(s, 0, readings).0, s.slots[i].id)
  {
    hide PopFrom, StopAt;
    PopServes(s, 0, readings);
  }

  lemma {:induction false} StopIsFirst(slots: subList, i: nat, readings: u8 -> Reading)
    requires i <= 8
    ensures forall j :: i <= j < StopAt(slots, i, readings) ==> !Yields(slots[j], readings)
    decreases 8 - i
  {
    hide Yields;
    StopUnfolds(slots, i, readings);
    if i < 8 && !Yields(slots[i], readings) {
      StopIsFirst(slots, i + 1, readings);
    }
  }

  lemma ServedHas(s: State, t: State, readings: u8 -> Reading, k: nat, x: u8, ms: nat)
    requires forall j :: 0 <= j < 8 ==> t.slots[j] == if j <= k then Served(s.slots[j], readings) else s.slots[j]
    ensures Has(t, x, ms) ==> Has(s, x, ms)
    ensures Has(s, x, ms) && !readings(x).Denied? ==> Has(t, x, ms)
  {
    if Has(t, x, ms) {
      var i :| 0 <= i < 8 && t.slots[i].active && t.slots[i].id == x && t.slots[i].interval == ms;
      assert s.slots[i].active && s.slots[i].id == x && s.slots[i].interval == ms;
    }
    if Has(s, x, ms) && !readings(x).Denied? {
      var i :| 0 <= i < 8 && s.slots[i].active && s.slots[i].id == x && s.slots[i].interval == ms;
      assert t.slots[i].active && t.slots[i].id == x && t.slots[i].interval == ms;
    }
  }
}
