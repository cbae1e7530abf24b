/** The notification channel of `createEvent`: an ordered listener list.

    Listeners are opaque identities of type `L`. `Notify` does not call
    anything; it returns, in order, the calls the channel makes, so that
    what an observer receives can be stated and proved. */
module Events {
  import opened Seqs

  /** One invocation of a listener by `Notify`. */
  datatype Call<L, S, A> = Call(listener: L, sender: S, args: A)

  /** A fresh channel has no listeners. */
  function NewChannel<L>(): (r: seq<L>)
    ensures |r| == 0
  {
    []
  }

  /** Appends `l` after every existing listener; duplicates are kept. */
  function Subscribe<L>(listeners: seq<L>, l: L): (r: seq<L>)
    ensures |r| == |listeners| + 1 && r[|listeners|] == l
    ensures r[..|listeners|] == listeners
  {
    listeners + [l]
  }

  /** Removes the first occurrence of `l` only; an absent listener changes nothing. */
  function Unsubscribe<L(==)>(listeners: seq<L>, l: L): (r: seq<L>)
    ensures l !in listeners ==> r == listeners
    ensures l in listeners ==> |r| == |listeners| - 1
    ensures l in listeners ==> multiset(r) == multiset(listeners) - multiset{l}
    ensures l in listeners ==>
              var i := IndexOf(listeners, l);
              r[..i] == listeners[..i] && r[i..] == listeners[i + 1..]
  {
    RemoveFirstMultiset(listeners, l);
    RemoveFirstSplices(listeners, l);
    RemoveFirst(listeners, l)
  }

  /** The calls made by notifying every listener with the same sender and arguments. */
  function Notify<L, S, A>(listeners: seq<L>, sender: S, args: A): (r: seq<Call<L, S, A>>)
    ensures |r| == |listeners|
    ensures forall i :: 0 <= i < |r| ==> r[i] == Call(listeners[i], sender, args)
  {
    if |listeners| == 0 then []
    else [Call(listeners[0], sender, args)] + Notify(listeners[1..], sender, args)
  }

  /** The listeners called, in the order they were called. */
  function Callees<L, S, A>(calls: seq<Call<L, S, A>>): (r: seq<L>)
    ensures |r| == |calls|
    ensures forall i :: 0 <= i < |r| ==> r[i] == calls[i].listener
  {
    if |calls| == 0 then [] else [calls[0].listener] + Callees(calls[1..])
  }

  /** Notify calls exactly the subscribed listeners, in subscription order, so
      each listener is called once per time it occurs in the list. */
  lemma NotifyCallsEachOccurrence<L, S, A>(listeners: seq<L>, sender: S, args: A)
    ensures Callees(Notify(listeners, sender, args)) == listeners
    ensures multiset(Callees(Notify(listeners, sender, args))) == multiset(listeners)
  {
  }

  /** A listener subscribed last is called last, after all earlier ones. */
  lemma NotifyAfterSubscribe<L, S, A>(listeners: seq<L>, l: L, sender: S, args: A)
    ensures Notify(Subscribe(listeners, l), sender, args)
         == Notify(listeners, sender, args) + [Call(l, sender, args)]
  {
    var lhs := Notify(Subscribe(listeners, l), sender, args);
    var rhs := Notify(listeners, sender, args) + [Call(l, sender, args)];
    assert |lhs| == |rhs|;
    forall i | 0 <= i < |lhs| ensures lhs[i] == rhs[i] {
      assert Subscribe(listeners, l)[i] == (listeners + [l])[i];
    }
  }

  /** Unsubscribing a listener that was not subscribed before undoes its subscription. */
  lemma UnsubscribeUndoesSubscribe<L>(listeners: seq<L>, l: L)
    requires l !in listeners
    ensures Unsubscribe(Subscribe(listeners, l), l) == listeners
  {
    var s := Subscribe(listeners, l);
    assert IndexOf(s, l) == |listeners| by {
      assert s[..|listeners|] == listeners;
    }
  }

  /** Subscribing a listener twice and unsubscribing it once leaves one subscription. */
  lemma DuplicateSubscriptionSurvivesOneUnsubscribe<L>(listeners: seq<L>, l: L)
    ensures l in Unsubscribe(Subscribe(Subscribe(listeners, l), l), l)
  {
    var s := Subscribe(Subscribe(listeners, l), l);
    assert multiset(s)[l] >= 2 by {
      assert s == listeners + [l] + [l];
    }
    assert multiset(Unsubscribe(s, l))[l] >= 1;
  }
}
