/** The listener registry of the preload script: subscriptions to main-process
    channels registered on `ipcRenderer`, kept in `activeSubscriptions` so
    that each can be disposed of and all are removed on unload, and the
    whitelisted `send`. */
module Preload {
  import opened Seqs

  /** The one channel `send` forwards. */
  const SplashScreenReady := "splash-screen-ready"
  const MusicFilesUpdated := "music-files-updated"
  const WindowStateChange := "window-state-change"

  /** A renderer function, compared by identity. A wrapper made by a channel
      binding records the function it forwards to. */
  class Callback {
    const target: Callback?

    constructor ()
      ensures target == null
    {
      target := null;
    }

    constructor Wrap(callback: Callback)
      ensures target == callback
    {
      target := callback;
    }
  }

  /** The `{ channel, callback }` object `createSubscription` adds to the set. */
  class Subscription {
    const channel: string
    const callback: Callback

    constructor (channel: string, callback: Callback)
      ensures this.channel == channel && this.callback == callback
    {
      this.channel := channel;
      this.callback := callback;
    }
  }

  /** The listener a subscription registered. */
  function Pair(s: Subscription): (string, Callback) {
    (s.channel, s.callback)
  }

  function Pairs(subs: seq<Subscription>): (r: seq<(string, Callback)>)
    ensures |r| == |subs|
    ensures forall i :: 0 <= i < |subs| ==> r[i] == Pair(subs[i])
  {
    seq(|subs|, i requires 0 <= i < |subs| => Pair(subs[i]))
  }

  /** `emitter.removeListener(channel, callback)` on a listener array: the
      most recently added instance goes, and nothing happens when there is none. */
  function RemoveLast<T(==)>(s: seq<T>, x: T): (r: seq<T>)
    ensures multiset(r) == multiset(s) - multiset{x}
    ensures x !in s ==> r == s
    ensures |r| == if x in s then |s| - 1 else |s|
  {
    if s == [] then []
    else
      var init, last := s[..|s| - 1], s[|s| - 1];
      assert s == init + [last];
      if last == x then init else RemoveLast(init, x) + [last]
  }

  /** The instance removed is the most recently added one: removing `x`
      whose last occurrence is at `p` takes out exactly position `p`. */
  lemma {:induction false} RemoveLastAt<T>(s: seq<T>, x: T, p: nat)
    requires p < |s| && s[p] == x
    requires forall j :: p < j < |s| ==> s[j] != x
    ensures RemoveLast(s, x) == s[..p] + s[p + 1..]
    decreases |s|
  {
    var init, last := s[..|s| - 1], s[|s| - 1];
    if p < |s| - 1 {
      assert last != x;
      RemoveLastAt(init, x, p);
      var a, b := init[..p], init[p + 1..];
      assert RemoveLast(s, x) == (a + b) + [last];
      assert (a + b) + [last] == a + (b + [last]);
      assert a == s[..p] && b + [last] == s[p + 1..];
    } else {
      assert RemoveLast(s, x) == init;
    }
  }

  /** `set.delete(x)` on the insertion-ordered contents of a set. */
  function Without<T(==)>(s: seq<T>, x: T): (r: seq<T>)
    ensures x !in s ==> r == s
  {
    if s == [] then []
    else
      var init, last := s[..|s| - 1], s[|s| - 1];
      assert s == init + [last];
      var r := Without(init, x);
      if last == x then r else r + [last]
  }

  /** `set.delete` removes `x` and keeps the remaining elements in their
      order, each once. */
  lemma {:induction false} WithoutKeepsOrder<T>(s: seq<T>, x: T)
    ensures x !in Without(s, x)
    ensures forall i :: 0 <= i < |s| && s[i] != x ==> s[i] in Without(s, x)
    ensures Subsequence(Without(s, x), s)
    ensures Distinct(s) ==> Distinct(Without(s, x))
  {
    if s != [] {
      var init, last := s[..|s| - 1], s[|s| - 1];
      assert s == init + [last];
      var r := Without(init, x);
      WithoutKeepsOrder(init, x);
      if last == x {
        SubsequenceSkip(r, init, last);
      } else {
        SubsequenceTake(r, init, last);
      }
      if Distinct(s) {
        SubsequenceDistinct(Without(s, x), s);
      }
    }
  }

  /** Deleting a member of a duplicate-free sequence takes exactly its one
      listener out of the pairs. */
  lemma {:induction false} PairsWithout(subs: seq<Subscription>, sub: Subscription)
    requires Distinct(subs) && sub in subs
    ensures multiset(Pairs(Without(subs, sub))) == multiset(Pairs(subs)) - multiset{Pair(sub)}
    decreases |subs|
  {
    var init, last := subs[..|subs| - 1], subs[|subs| - 1];
    assert subs == init + [last];
    DistinctInit(subs);
    PairsSnoc(init, last);
    if last != sub {
      PairsWithout(init, sub);
      PairsSnoc(Without(init, sub), last);
    }
  }

  lemma PairsSnoc(subs: seq<Subscription>, sub: Subscription)
    ensures Pairs(subs + [sub]) == Pairs(subs) + [Pair(sub)]
  {
  }

  /** No subscription in `subs` registered the listener `sub` registered, so
      a stale disposer of `sub` finds nothing to remove. */
  predicate Unshared(subs: seq<Subscription>, sub: Subscription) {
    forall i :: 0 <= i < |subs| ==> Pair(subs[i]) != Pair(sub)
  }

  /** A disposer whose listener no active subscription holds (one already
      called, when listeners are not shared) changes nothing. */
  lemma StaleDisposeIsNoop(listeners: seq<(string, Callback)>, subs: seq<Subscription>, sub: Subscription)
    requires Consistent(listeners, subs) && Unshared(subs, sub)
    ensures RemoveLast(listeners, Pair(sub)) == listeners && Without(subs, sub) == subs
  {
    assert Pair(sub) !in Pairs(subs);
    assert Pair(sub) !in multiset(listeners);
  }

  lemma {:induction false} PairsSubsequence(a: seq<Subscription>, b: seq<Subscription>)
    requires Subsequence(a, b)
    ensures Subsequence(Pairs(a), Pairs(b))
    decreases |b|
  {
    if b == [] {
      SubsequenceEmpty(Pairs(b));
    } else {
      var b' := b[..|b| - 1];
      assert Pairs(b) == Pairs(b') + [Pair(b[|b| - 1])];
      if a != [] && a[|a| - 1] == b[|b| - 1] && Subsequence(a[..|a| - 1], b') {
        var a' := a[..|a| - 1];
        PairsSubsequence(a', b');
        assert Pairs(a) == Pairs(a') + [Pair(a[|a| - 1])];
        SubsequenceTake(Pairs(a'), Pairs(b'), Pair(b[|b| - 1]));
      } else {
        PairsSubsequence(a, b');
        SubsequenceSkip(Pairs(a), Pairs(b'), Pair(b[|b| - 1]));
      }
    }
  }

  /** When no two subscriptions share a listener, none does after one is
      disposed of, and its listener is held by none of those that remain: a
      second call of the same disposer finds nothing to remove. */
  lemma DisposedIsUnshared(subs: seq<Subscription>, sub: Subscription)
    requires Distinct(Pairs(subs)) && sub in subs
    ensures Unshared(Without(subs, sub), sub)
    ensures Distinct(Pairs(Without(subs, sub)))
  {
    var r := Without(subs, sub);
    WithoutKeepsOrder(subs, sub);
    SubsequenceMembers(r, subs);
    var k :| 0 <= k < |subs| && subs[k] == sub;
    forall i | 0 <= i < |r| ensures Pair(r[i]) != Pair(sub) {
      assert r[i] in subs;
      var j :| 0 <= j < |subs| && subs[j] == r[i];
      assert j != k;
      assert Pairs(subs)[j] != Pairs(subs)[k];
    }
    PairsSubsequence(r, subs);
    SubsequenceDistinct(Pairs(r), Pairs(subs));
  }

  /** Adding a subscription whose listener no other holds keeps the
      listeners distinct. */
  lemma FreshListenerKeepsPairsDistinct(subs: seq<Subscription>, sub: Subscription)
    requires Distinct(Pairs(subs)) && Unshared(subs, sub)
    ensures Distinct(Pairs(subs + [sub]))
  {
    assert Pairs(subs + [sub]) == Pairs(subs) + [Pair(sub)];
  }

  /** Each subscription is held once, and the listeners are exactly those
      the subscriptions registered. */
  predicate Consistent(listeners: seq<(string, Callback)>, subs: seq<Subscription>) {
    Distinct(subs) && multiset(listeners) == multiset(Pairs(subs))
  }

  /** Disposing of `sub` turns `listeners` and `subs` into `listeners'` and
      `subs'`. For an active subscription, or one whose listener no active
      subscription holds, the two stay in step. */
  lemma DisposeKeepsConsistent(listeners: seq<(string, Callback)>, subs: seq<Subscription>, sub: Subscription,
                               listeners': seq<(string, Callback)>, subs': seq<Subscription>)
    requires Consistent(listeners, subs)
    requires listeners' == RemoveLast(listeners, Pair(sub)) && subs' == Without(subs, sub)
    ensures sub in subs || Unshared(subs, sub) ==> Consistent(listeners', subs')
  {
    WithoutKeepsOrder(subs, sub);
    if sub in subs {
      PairsWithout(subs, sub);
    } else {
      assert subs' == subs;
      if Unshared(subs, sub) {
        StaleDisposeIsNoop(listeners, subs, sub);
      }
    }
  }

  /** The preload script's state: the listeners registered on `ipcRenderer` in
      registration order, `activeSubscriptions` in insertion order, and the
      messages `ipcRenderer.send` was given. */
  class Registry {
    var listeners: seq<(string, Callback)>
    var active: seq<Subscription>
    var sent: seq<(string, string)>

    /** Each active subscription is in the set once, and the registered
        listeners are exactly those of the active subscriptions. */
    predicate Valid()
      reads this
    {
      Consistent(listeners, active)
    }

    constructor ()
      ensures Valid()
      ensures listeners == [] && active == [] && sent == []
    {
      listeners, active, sent := [], [], [];
    }

    /** `createSubscription(channel, callback)`: one more listener and one
        fresh entry, even for a channel and callback already subscribed. */
    method CreateSubscription(channel: string, callback: Callback) returns (subscription: Subscription)
      requires Valid()
      modifies this
      ensures Valid()
      ensures fresh(subscription)
      ensures subscription.channel == channel && subscription.callback == callback
      ensures listeners == old(listeners) + [(channel, callback)]
      ensures active == old(active) + [subscription]
      ensures sent == old(sent)
    {
      listeners := listeners + [(channel, callback)];
      subscription := new Subscription(channel, callback);
      assert Pairs(active + [subscription]) == Pairs(active) + [Pair(subscription)];
      active := active + [subscription];
    }

    /** The disposer `createSubscription` returns, for its `subscription`:
        its own listener and its own entry go, and the other subscriptions
        stay. */
    method Dispose(subscription: Subscription)
      requires Valid()
      modifies this
      ensures listeners == RemoveLast(old(listeners), Pair(subscription))
      ensures active == Without(old(active), subscription)
      ensures sent == old(sent)
      ensures subscription in old(active) || Unshared(old(active), subscription) ==> Valid()
    {
      ghost var before, subs := listeners, active;
      listeners := RemoveLast(listeners, Pair(subscription));
      active := Without(active, subscription);
      DisposeKeepsConsistent(before, subs, subscription, listeners, active);
    }

    /** The `unload` handler: removes every active subscription's listener,
        then clears the set. */
    method Unload()
      requires Valid()
      modifies this
      ensures Valid()
      ensures listeners == [] && active == []
      ensures sent == old(sent)
    {
      var i := 0;
      while i < |active|
        invariant 0 <= i <= |active|
        invariant active == old(active) && sent == old(sent)
        invariant multiset(listeners) == multiset(Pairs(active[i..]))
      {
        assert Pairs(active[i..]) == [Pair(active[i])] + Pairs(active[i + 1..]);
        listeners := RemoveLast(listeners, Pair(active[i]));
        i := i + 1;
      }
      assert |multiset(listeners)| == 0;
      active := [];
    }

    /** `send(channel, data)`: forwarded only on the whitelisted channel. */
    method Send(channel: string, data: string)
      modifies this
      ensures sent == if channel == SplashScreenReady then old(sent) + [(channel, data)] else old(sent)
      ensures listeners == old(listeners) && active == old(active)
    {
      var validChannels := [SplashScreenReady];
      if channel in validChannels {
        sent := sent + [(channel, data)];
      }
    }

    /** `onMusicFilesUpdated(callback)`: a fresh wrapper forwarding to
        `callback`, subscribed on "music-files-updated". */
    method OnMusicFilesUpdated(callback: Callback) returns (subscription: Subscription)
      requires Valid()
      modifies this
      ensures Valid()
      ensures fresh(subscription) && fresh(subscription.callback)
      ensures subscription.channel == MusicFilesUpdated && subscription.callback.target == callback
      ensures listeners == old(listeners) + [Pair(subscription)]
      ensures active == old(active) + [subscription]
      ensures sent == old(sent)
      ensures Distinct(Pairs(old(active))) ==> Distinct(Pairs(active))
    {
      var wrapper := new Callback.Wrap(callback);
      ghost var before := active;
      assert forall i :: 0 <= i < |before| ==> before[i].callback != wrapper;
      subscription := CreateSubscription(MusicFilesUpdated, wrapper);
      if Distinct(Pairs(before)) {
        FreshListenerKeepsPairsDistinct(before, subscription);
      }
    }

    /** `onWindowStateChange(callback)`: the same on "window-state-change". */
    method OnWindowStateChange(callback: Callback) returns (subscription: Subscription)
      requires Valid()
      modifies this
      ensures Valid()
      ensures fresh(subscription) && fresh(subscription.callback)
      ensures subscription.channel == WindowStateChange && subscription.callback.target == callback
      ensures listeners == old(listeners) + [Pair(subscription)]
      ensures active == old(active) + [subscription]
      ensures sent == old(sent)
      ensures Distinct(Pairs(old(active))) ==> Distinct(Pairs(active))
    {
      var wrapper := new Callback.Wrap(callback);
      ghost var before := active;
      assert forall i :: 0 <= i < |before| ==> before[i].callback != wrapper;
      subscription := CreateSubscription(WindowStateChange, wrapper);
      if Distinct(Pairs(before)) {
        FreshListenerKeepsPairsDistinct(before, subscription);
      }
    }
  }
}
