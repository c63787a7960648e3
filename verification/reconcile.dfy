/** The run of `main` once the items are built: first-run priming, or the
    delivery of the items not yet posted, oldest first, with the state saved
    after every successful post. */
module Reconcile {
  import opened Text
  import opened Entries
  import opened Format

  /** What a run does that outlives it: a message posted to the webhook, or
      the `posted` set written to the state file. */
  datatype Event = Sent(text: string) | Saved(snapshot: set<string>)

  /** How a run ends: primed (the count `main` prints), all new items posted,
      or stopped by the post that failed after `delivered` successful ones. */
  datatype Outcome = Primed(count: nat) | Posted(count: nat) | SendFailed(delivered: nat)

  /** `reversed(items)` */
  function Reverse(s: seq<Item>): (r: seq<Item>)
    ensures |r| == |s|
    decreases |s|
  {
    if s == [] then [] else [s[|s| - 1]] + Reverse(s[..|s| - 1])
  }

  /** The filter of `new_items`: the items whose id is not in `posted`, in order. */
  function Unseen(s: seq<Item>, posted: set<string>): (r: seq<Item>)
    ensures |r| <= |s|
    decreases |s|
  {
    if s == [] then [] else (if s[0].id in posted then [] else [s[0]]) + Unseen(s[1..], posted)
  }

  /** `new_items`, computed against `posted` as it was before the loop. */
  function NewItems(items: seq<Item>, posted: set<string>): (r: seq<Item>)
    ensures |r| <= |items|
    ensures forall it :: it in r <==> it in items && it.id !in posted
  {
    UnseenMembers(Reverse(items), posted);
    ReverseMultiset(items);
    assert forall it :: it in Reverse(items) <==> it in multiset(Reverse(items));
    Unseen(Reverse(items), posted)
  }

  /** The ids of a sequence of items. */
  function IdSet(s: seq<Item>): (r: set<string>)
    ensures forall it :: it in s ==> it.id in r
    decreases |s|
  {
    if s == [] then {}
    else
      var init := s[..|s| - 1];
      assert s == init + [s[|s| - 1]];
      IdSet(init) + {s[|s| - 1].id}
  }

  /** The events of a delivery loop that posted the items of `s`, starting
      from the set `start`: each post is followed by a save of the set that
      now includes its id. */
  function DeliveryLog(start: set<string>, message: Item -> string, s: seq<Item>): (r: seq<Event>)
    ensures |r| == 2 * |s|
    decreases |s|
  {
    if s == [] then []
    else
      DeliveryLog(start, message, s[..|s| - 1]) + [Sent(message(s[|s| - 1])), Saved(start + IdSet(s))]
  }

  /** The text posted for an item under a given label and abstract limit. */
  function MessageOf(channelLabel: string, limit: int): (message: Item -> string)
    ensures forall it :: message(it) == FormatMessage(channelLabel, limit, it)
    ensures forall it :: NoOuterSpace(message(it))
  {
    it => FormatMessage(channelLabel, limit, it)
  }

  // ---------------------------------------------------------------------------
  // Properties of the specification functions

  lemma {:induction false} ReverseAt(s: seq<Item>, k: nat)
    requires k < |s|
    ensures Reverse(s)[k] == s[|s| - 1 - k]
    decreases |s|
  {
    if k > 0 {
      ReverseAt(s[..|s| - 1], k - 1);
    }
  }

  lemma {:induction false} ReverseMultiset(s: seq<Item>)
    ensures multiset(Reverse(s)) == multiset(s)
    decreases |s|
  {
    if s != [] {
      ReverseMultiset(s[..|s| - 1]);
      assert s == s[..|s| - 1] + [s[|s| - 1]];
    }
  }

  lemma IdSetAppend(s: seq<Item>, it: Item)
    ensures IdSet(s + [it]) == IdSet(s) + {it.id}
  {
    assert (s + [it])[..|s|] == s;
  }

  /** An id is in the set exactly when some item of the sequence carries it. */
  lemma {:induction false} IdSetMembers(s: seq<Item>)
    ensures forall it :: it in s ==> it.id in IdSet(s)
    ensures forall x :: x in IdSet(s) ==> exists it :: it in s && it.id == x
    decreases |s|
  {
    if s != [] {
      var init := s[..|s| - 1];
      IdSetMembers(init);
      assert s == init + [s[|s| - 1]];
    }
  }

  /** An item survives the filter exactly when its id is unseen. */
  lemma {:induction false} UnseenMembers(s: seq<Item>, posted: set<string>)
    ensures forall it :: it in Unseen(s, posted) <==> it in s && it.id !in posted
    decreases |s|
  {
    if s != [] {
      UnseenMembers(s[1..], posted);
      assert s == [s[0]] + s[1..];
    }
  }

  /** The filter counts every occurrence: an unseen item that occurs twice in
      the feed is kept twice. */
  lemma {:induction false} UnseenCount(s: seq<Item>, posted: set<string>, it: Item)
    ensures multiset(Unseen(s, posted))[it] == if it.id in posted then 0 else multiset(s)[it]
    decreases |s|
  {
    if s != [] {
      var head := if s[0].id in posted then [] else [s[0]];
      UnseenCount(s[1..], posted, it);
      assert Unseen(s, posted) == head + Unseen(s[1..], posted);
      assert multiset(Unseen(s, posted)) == multiset(head) + multiset(Unseen(s[1..], posted));
      assert s == [s[0]] + s[1..];
      assert multiset(s) == multiset{s[0]} + multiset(s[1..]);
    }
  }

  lemma {:induction false} UnseenAppend(a: seq<Item>, b: seq<Item>, posted: set<string>)
    ensures Unseen(a + b, posted) == Unseen(a, posted) + Unseen(b, posted)
    decreases |a|
  {
    if a == [] {
      assert a + b == b;
    } else {
      assert (a + b)[0] == a[0];
      assert (a + b)[1..] == a[1..] + b;
      UnseenAppend(a[1..], b, posted);
    }
  }

  /** Filtering the reversed feed is reversing the filtered feed. */
  lemma {:induction false} UnseenReverse(s: seq<Item>, posted: set<string>)
    ensures Unseen(Reverse(s), posted) == Reverse(Unseen(s, posted))
    decreases |s|
  {
    if s != [] {
      var init, last := s[..|s| - 1], s[|s| - 1];
      UnseenReverse(init, posted);
      UnseenAppend([last], Reverse(init), posted);
      assert s == init + [last];
      UnseenAppend(init, [last], posted);
      ReverseAppend(Unseen(init, posted), Unseen([last], posted));
    }
  }

  lemma {:induction false} ReverseAppend(a: seq<Item>, b: seq<Item>)
    ensures Reverse(a + b) == Reverse(b) + Reverse(a)
    decreases |b|
  {
    if b == [] {
      assert a + b == a;
    } else {
      assert (a + b)[..|a + b| - 1] == a + b[..|b| - 1];
      ReverseAppend(a, b[..|b| - 1]);
    }
  }

  lemma {:induction false} UnseenTwice(s: seq<Item>, p: set<string>, q: set<string>)
    ensures Unseen(Unseen(s, p), q) == Unseen(s, p + q)
    decreases |s|
  {
    if s != [] {
      UnseenTwice(s[1..], p, q);
      UnseenAppend(if s[0].id in p then [] else [s[0]], Unseen(s[1..], p), q);
    }
  }

  lemma {:induction false} UnseenAllSeen(s: seq<Item>, posted: set<string>)
    requires forall it :: it in s ==> it.id in posted
    ensures Unseen(s, posted) == []
    decreases |s|
  {
    if s != [] {
      assert s[0] in s;
      UnseenAllSeen(s[1..], posted);
    }
  }

  /** Oldest first: the new items are the unseen items of the feed in reverse
      feed order; a feed that is entirely unseen is delivered reversed. */
  lemma NewItemsOldestFirst(items: seq<Item>, posted: set<string>)
    ensures NewItems(items, posted) == Reverse(Unseen(items, posted))
    ensures (forall it :: it in items ==> it.id !in posted) ==> NewItems(items, posted) == Reverse(items)
  {
    UnseenReverse(items, posted);
    if forall it :: it in items ==> it.id !in posted {
      UnseenNoneSeen(items, posted);
    }
  }

  lemma {:induction false} UnseenNoneSeen(s: seq<Item>, posted: set<string>)
    requires forall it :: it in s ==> it.id !in posted
    ensures Unseen(s, posted) == s
    decreases |s|
  {
    if s != [] {
      assert s[0] in s;
      UnseenNoneSeen(s[1..], posted);
    }
  }

  /** Every occurrence of an unseen item in the feed is sent, duplicates
      included; no item with a posted id is sent. */
  lemma NewItemsCount(items: seq<Item>, posted: set<string>, it: Item)
    ensures multiset(NewItems(items, posted))[it] == if it.id in posted then 0 else multiset(items)[it]
  {
    UnseenCount(Reverse(items), posted, it);
    ReverseMultiset(items);
  }

  /** After a run that posted the first `k` new items, the next run on the same
      feed offers the remaining new items again, except those whose id was
      posted in this run. */
  lemma RetryAfterFailure(items: seq<Item>, posted: set<string>, k: nat)
    requires k <= |NewItems(items, posted)|
    ensures var pending := NewItems(items, posted);
            NewItems(items, posted + IdSet(pending[..k])) == Unseen(pending[k..], IdSet(pending[..k]))
  {
    var pending := NewItems(items, posted);
    var done := IdSet(pending[..k]);
    UnseenTwice(Reverse(items), posted, done);
    assert pending == pending[..k] + pending[k..];
    UnseenAppend(pending[..k], pending[k..], done);
    IdSetMembers(pending[..k]);
    UnseenAllSeen(pending[..k], done);
  }

  /** After a failed post at position `k`, a new item not delivered before it
      is still missing from the saved set, and the next run offers it again. */
  lemma UndeliveredStayUnposted(items: seq<Item>, posted: set<string>, k: nat)
    requires k <= |NewItems(items, posted)|
    ensures var pending := NewItems(items, posted);
            forall j :: k <= j < |pending| && pending[j].id !in IdSet(pending[..k]) ==>
              && pending[j].id !in posted + IdSet(pending[..k])
              && pending[j] in NewItems(items, posted + IdSet(pending[..k]))
  {
    var pending := NewItems(items, posted);
    var done := IdSet(pending[..k]);
    UnseenMembers(Reverse(items), posted);
    RetryAfterFailure(items, posted, k);
    UnseenMembers(pending[k..], done);
    forall j | k <= j < |pending| && pending[j].id !in done
      ensures pending[j].id !in posted + done
      ensures pending[j] in NewItems(items, posted + done)
    {
      assert pending[j] in pending;
      assert pending[j] == pending[k..][j - k];
    }
  }

  /** Idempotence: re-running on an unchanged feed after a run that posted
      every new item sends nothing. */
  lemma RerunAfterSuccess(items: seq<Item>, posted: set<string>)
    ensures NewItems(items, posted + IdSet(NewItems(items, posted))) == []
  {
    var pending := NewItems(items, posted);
    RetryAfterFailure(items, posted, |pending|);
    assert pending[..|pending|] == pending;
  }

  /** After priming, a run on the same feed sends nothing. */
  lemma RerunAfterPriming(items: seq<Item>)
    ensures NewItems(items, IdSet(items)) == []
  {
    ReverseMultiset(items);
    IdSetMembers(items);
    forall it | it in Reverse(items) ensures it.id in IdSet(items) {
      assert it in multiset(Reverse(items));
      assert it in items;
    }
    UnseenAllSeen(Reverse(items), IdSet(items));
  }

  /** The set saved by priming is empty exactly when the feed gave no items:
      a first run on an empty feed leaves the state empty, so the next run is
      a first run again. */
  lemma PrimedSetEmpty(items: seq<Item>)
    ensures IdSet(items) == {} <==> items == []
  {
    if items != [] {
      assert items[|items| - 1].id in IdSet(items);
    }
  }

  /** One more post extends the log by that post and the save after it. */
  lemma DeliveryLogStep(start: set<string>, message: Item -> string, s: seq<Item>, it: Item)
    ensures DeliveryLog(start, message, s + [it])
            == DeliveryLog(start, message, s) + [Sent(message(it)), Saved(start + IdSet(s + [it]))]
  {
    assert (s + [it])[..|s|] == s;
  }

  /** One iteration of the delivery loop: the set grows by the id of the
      item posted, and the log by its message and the save that follows. */
  lemma PostStep(start: set<string>, message: Item -> string, pending: seq<Item>, k: nat)
    requires k < |pending|
    ensures start + IdSet(pending[..k + 1]) == start + IdSet(pending[..k]) + {pending[k].id}
    ensures DeliveryLog(start, message, pending[..k + 1])
            == DeliveryLog(start, message, pending[..k])
               + [Sent(message(pending[k])), Saved(start + IdSet(pending[..k + 1]))]
  {
    assert pending[..k + 1] == pending[..k] + [pending[k]];
    IdSetAppend(pending[..k], pending[k]);
    DeliveryLogStep(start, message, pending[..k], pending[k]);
  }

  /** The k-th post of a delivery loop is the message of the k-th item, and the
      save that follows it holds the start set plus the ids posted so far. */
  lemma {:induction false} DeliveryLogAt(start: set<string>, message: Item -> string, s: seq<Item>, k: nat)
    requires k < |s|
    ensures DeliveryLog(start, message, s)[2 * k] == Sent(message(s[k]))
    ensures DeliveryLog(start, message, s)[2 * k + 1] == Saved(start + IdSet(s[..k + 1]))
    decreases |s|
  {
    var init, last := s[..|s| - 1], s[|s| - 1];
    assert s == init + [last];
    DeliveryLogStep(start, message, init, last);
    if k < |init| {
      DeliveryLogAt(start, message, init, k);
      assert init[..k + 1] == s[..k + 1];
    } else {
      assert s[..k + 1] == s;
    }
  }

  // ---------------------------------------------------------------------------
  // The run

  /** The state of one run of `main`: the `posted` set it owns, and everything
      it has posted and saved so far, in order. */
  class Reconciler {
    var posted: set<string>
    var log: seq<Event>

    /** `load_state`: the set read from the state file, empty when there is none. */
    constructor (loaded: set<string>)
      ensures posted == loaded && log == []
    {
      posted := loaded;
      log := [];
    }

    /** First-run priming (lines 82-87): every item id is added, the state is
        saved once, nothing is posted. */
    method Prime(items: seq<Item>) returns (count: nat)
      modifies this
      ensures posted == old(posted) + IdSet(items)
      ensures log == old(log) + [Saved(posted)]
      ensures count == |items|
    {
      var i := 0;
      while i < |items|
        invariant i <= |items|
        invariant posted == old(posted) + IdSet(items[..i])
        invariant log == old(log)
      {
        assert items[..i + 1] == items[..i] + [items[i]];
        IdSetAppend(items[..i], items[i]);
        posted := posted + {items[i].id};
        i := i + 1;
      }
      assert items[..i] == items;
      log := log + [Saved(posted)];
      count := |items|;
    }

    /** The loop of lines 96-113 over the new items: each is rendered by
        `message` and posted; after each successful post its id is added and
        the state is saved; a failed post (`accept` says how the
        `delivered`-th post of the loop ends) stops the loop at once. */
    method PostInOrder(pending: seq<Item>, message: Item -> string, accept: nat -> bool)
      returns (delivered: nat)
      modifies this
      ensures delivered <= |pending|
      ensures forall j :: 0 <= j < delivered ==> accept(j)
      ensures delivered < |pending| ==> !accept(delivered)
      ensures posted == old(posted) + IdSet(pending[..delivered])
      ensures log == old(log) + DeliveryLog(old(posted), message, pending[..delivered])
    {
      delivered := 0;
      while delivered < |pending|
        invariant delivered <= |pending|
        invariant forall j :: 0 <= j < delivered ==> accept(j)
        invariant posted == old(posted) + IdSet(pending[..delivered])
        invariant log == old(log) + DeliveryLog(old(posted), message, pending[..delivered])
      {
        var it := pending[delivered];
        var text := message(it);
        if !accept(delivered) {
          // slack_post raised: the exception ends the run
          return;
        }
        assert forall j :: 0 <= j < delivered + 1 ==> accept(j);
        PostStep(old(posted), message, pending, delivered);
        log := log + [Sent(text)];
        posted := posted + {it.id};
        log := log + [Saved(posted)];
        assert log == old(log) + DeliveryLog(old(posted), message, pending[..delivered + 1]);
        delivered := delivered + 1;
      }
    }

    /** The steady-state run (lines 90-113): the new items, computed once
        against the loaded set, are posted oldest first with the message of
        lines 97-107; when every post succeeds the state is saved once more. */
    method Deliver(items: seq<Item>, channelLabel: string, limit: int, accept: nat -> bool)
      returns (delivered: nat, ok: bool)
      modifies this
      ensures var pending := NewItems(items, old(posted));
              && delivered <= |pending|
              && (forall j :: 0 <= j < delivered ==> accept(j))
              && ok == (delivered == |pending|)
              && (!ok ==> !accept(delivered))
              && posted == old(posted) + IdSet(pending[..delivered])
              && log == old(log) + DeliveryLog(old(posted), MessageOf(channelLabel, limit), pending[..delivered])
                        + (if ok then [Saved(posted)] else [])
    {
      var pending := NewItems(items, posted);
      delivered := PostInOrder(pending, MessageOf(channelLabel, limit), accept);
      ok := delivered == |pending|;
      if ok {
        log := log + [Saved(posted)];
      }
    }

    /** One run of `main` on the parsed feed, from the loaded state: the items
        are collected; an empty `posted` set means a first run, which primes;
        any other set leads to the delivery loop, under the configured label
        stripped as line 54 does. */
    method Run(unescape: string -> string, entries: seq<RawEntry>, channelLabel: string, limit: int,
               accept: nat -> bool)
      returns (outcome: Outcome)
      modifies this
      ensures old(posted) <= posted
      ensures var items := NormalizeAll(unescape, entries);
              old(posted) == {} ==>
                && outcome == Primed(|items|)
                && posted == IdSet(items)
                && log == old(log) + [Saved(posted)]
      ensures var pending := NewItems(NormalizeAll(unescape, entries), old(posted));
              old(posted) != {} ==>
                && (outcome.Posted? || outcome.SendFailed?)
                && var k := if outcome.Posted? then outcome.count else outcome.delivered;
                && k <= |pending|
                && (forall j :: 0 <= j < k ==> accept(j))
                && (outcome.Posted? <==> k == |pending|)
                && (outcome.SendFailed? ==> !accept(k))
                && posted == old(posted) + IdSet(pending[..k])
                && log == old(log) + DeliveryLog(old(posted), MessageOf(Strip(channelLabel), limit), pending[..k])
                          + (if outcome.Posted? then [Saved(posted)] else [])
    {
      var items := CollectItems(unescape, entries);
      if |posted| == 0 {
        var count := Prime(items);
        outcome := Primed(count);
      } else {
        var delivered, ok := Deliver(items, Strip(channelLabel), limit, accept);
        outcome := if ok then Posted(delivered) else SendFailed(delivered);
      }
    }
  }
}
