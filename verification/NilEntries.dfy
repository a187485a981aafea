/**
 The nil identity entries of the controller's model (common/router_data_model_sender.go). A membership change that names
 an identity the controller does not have leaves one, and a snapshot panics over it. This module says exactly which
 runs of events stay clear of them, and which runs end with one.
 */
module NilEntries {
  import opened Types
  import opened Refinement
  import S = Sender

  ghost predicate NilAt(s: S.SenderModel, i: Id) {
    i in s.identities && s.identities[i].None?
  }

  // ---- runs that never have one ----------------------------------------------------------------------------

  /** A membership change, add or remove, of a known policy or not, names identities the controller has. */
  ghost predicate NamesKnown(s: S.SenderModel, e: Event) {
    e.ChangeEvent? && e.change.related.RelatedIdentity? ==> ToSet(e.change.ids) <= s.identities.Keys
  }

  lemma NoNilStepIff(s: S.SenderModel, e: Event)
    requires NoNil(s)
    ensures NoNil(S.Handle(s, e)) <==> NamesKnown(s, e)
  {
    if e.ChangeEvent? {
      NilIff(s, e.change);
    }
  }

  ghost predicate NamesKnownAll(s: S.SenderModel, events: seq<Event>)
    decreases |events|
  {
    events == [] || (NamesKnown(s, events[0]) && NamesKnownAll(S.Handle(s, events[0]), events[1..]))
  }

  ghost predicate NoNilThroughout(s: S.SenderModel, events: seq<Event>)
    decreases |events|
  {
    NoNil(s) && (events == [] || NoNilThroughout(S.Handle(s, events[0]), events[1..]))
  }

  /** Every state of a run is free of nil entries iff every membership change names identities the controller has. */
  lemma {:induction false} NoNilThroughoutIff(s: S.SenderModel, events: seq<Event>)
    requires NoNil(s)
    ensures NoNilThroughout(s, events) <==> NamesKnownAll(s, events)
    ensures NamesKnownAll(s, events) ==> NoNil(S.HandleAll(s, events))
    decreases |events|
  {
    if events != [] {
      NoNilStepIff(s, events[0]);
      if NamesKnown(s, events[0]) {
        NoNilThroughoutIff(S.Handle(s, events[0]), events[1..]);
      }
    }
  }

  // ---- runs that end with one ------------------------------------------------------------------------------

  ghost predicate LeavesNil(s: S.SenderModel, e: Event, i: Id) {
    e.ChangeEvent? && e.change.related.RelatedIdentity? && i in e.change.ids && i !in s.identities
  }

  /** A create or update fills the entry, a delete removes it. */
  predicate Settles(e: Event, i: Id) {
    e.IdentityEvent? && e.id == i
  }

  lemma NilChange(s: S.SenderModel, change: PolicyChange, i: Id)
    requires change.related.RelatedIdentity?
    ensures NilAt(S.Change(s, change), i) <==> (i in change.ids && i !in s.identities) || NilAt(s, i)
  {
    assert i in ToSet(change.ids) <==> i in change.ids;
  }

  lemma NilStep(s: S.SenderModel, e: Event, i: Id)
    ensures NilAt(S.Handle(s, e), i) <==> LeavesNil(s, e, i) || (NilAt(s, i) && !Settles(e, i))
  {
    if e.ChangeEvent? && e.change.related.RelatedIdentity? {
      NilChange(s, e.change, i);
    } else if !e.IdentityEvent? {
      assert S.Handle(s, e).identities == s.identities;
    }
  }

  /** Event k names identity i when the controller does not have it, and no later event is about the identity. */
  ghost predicate NilFrom(s: S.SenderModel, events: seq<Event>, i: Id, k: nat) {
    && k < |events| && LeavesNil(S.HandleAll(s, events[..k]), events[k], i)
    && forall j :: k < j < |events| ==> !Settles(events[j], i)
  }

  lemma {:induction false} HandleAllAppend(s: S.SenderModel, events: seq<Event>, e: Event)
    ensures S.HandleAll(s, events + [e]) == S.Handle(S.HandleAll(s, events), e)
    decreases |events|
  {
    if events == [] {
      assert events + [e] == [e] && [e][1..] == [];
    } else {
      assert (events + [e])[1..] == events[1..] + [e];
      HandleAllAppend(S.Handle(s, events[0]), events[1..], e);
    }
  }

  lemma NilFromOneMore(s: S.SenderModel, events: seq<Event>, e: Event, i: Id, k: nat)
    ensures NilFrom(s, events + [e], i, k) <==>
            if k == |events| then LeavesNil(S.HandleAll(s, events), e, i)
            else NilFrom(s, events, i, k) && !Settles(e, i)
  {
    var more := events + [e];
    if k == |events| {
      assert more[..k] == events;
    } else if k < |events| {
      assert more[..k] == events[..k] && more[|events|] == e;
      assert forall j :: k < j < |events| ==> more[j] == events[j];
    }
  }

  /** A run ends with a nil entry exactly for the identities some event named too early and none settled since. */
  lemma {:induction false} NilAfterIff(s: S.SenderModel, events: seq<Event>, i: Id)
    requires NoNil(s)
    ensures NilAt(S.HandleAll(s, events), i) <==> exists k :: NilFrom(s, events, i, k)
    decreases |events|
  {
    if events != [] {
      var n := |events| - 1;
      var front, e := events[..n], events[n];
      assert events == front + [e];
      NilAfterIff(s, front, i);
      HandleAllAppend(s, front, e);
      NilStep(S.HandleAll(s, front), e, i);
      NilFromOneMore(s, front, e, i, n);
      forall k ensures NilFrom(s, events, i, k) <==>
                       if k == n then LeavesNil(S.HandleAll(s, front), e, i)
                       else NilFrom(s, front, i, k) && !Settles(e, i)
      {
        NilFromOneMore(s, front, e, i, k);
      }
      if NilAt(S.HandleAll(s, front), i) && !Settles(e, i) {
        var k :| NilFrom(s, front, i, k);
        assert NilFrom(s, events, i, k);
      }
    }
  }

  lemma NilFree(s: S.SenderModel)
    ensures NoNil(s) <==> forall i :: !NilAt(s, i)
  {
    if !NoNil(s) {
      var i :| i in s.identities && s.identities[i].None?;
      assert NilAt(s, i);
    } else {
      assert forall i :: NilAt(s, i) ==> i in s.identities;
    }
  }

  lemma NoNilAfterIff(s: S.SenderModel, events: seq<Event>)
    requires NoNil(s)
    ensures NoNil(S.HandleAll(s, events)) <==> forall i, k :: !NilFrom(s, events, i, k)
  {
    var after := S.HandleAll(s, events);
    NilFree(after);
    forall i ensures NilAt(after, i) <==> exists k :: NilFrom(s, events, i, k) {
      NilAfterIff(s, events, i);
    }
    if i, k :| NilFrom(s, events, i, k) {
      assert NilAt(after, i);
    }
  }
}
