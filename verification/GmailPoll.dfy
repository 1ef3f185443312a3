/**
 Polling a mailbox: a cursor, an overlap of two seconds and a set of seen ids. Whatever lists and
 fetches fail, no message is emitted twice and none that is due is lost.
 */
module GmailPoll {
  import opened Wrappers

  const OVERLAP: int := 2

  /** The messages that match the trigger's own query: id -> arrival, in whole seconds. */
  type Mailbox = map<string, int>

  datatype Cursor = Cursor(sinceUnix: int, seen: set<string>)

  /** What one pass over listed ids leaves: the ids seen, those emitted, and whether a fetch failed. */
  datatype Pass = Pass(seen: set<string>, items: seq<string>, failed: bool)

  // ---------------------------------------------------------------- one poll

  /** The first `n` listed ids; `fails` says which fetches fail, if they are tried. */
  function Fetched(seen: set<string>, ids: seq<string>, fails: seq<bool>, n: nat): Pass
    requires n <= |ids| == |fails|
  {
    if n == 0 then Pass(seen, [], false)
    else
      var p := Fetched(seen, ids, fails, n - 1);
      var id := ids[n - 1];
      if id in p.seen then p
      else if fails[n - 1] then p.(failed := true)
      else Pass(p.seen + {id}, p.items + [id], p.failed)
  }

  /** The listed ids that were emitted, now or before. */
  function Retained(seen: set<string>, ids: seq<string>): set<string> {
    set id | id in ids && id in seen
  }

  /** `listing` is None when the list request fails. */
  datatype Listing = Listing(ids: seq<string>, fails: seq<bool>)

  function Poll(c: Cursor, now: int, listing: Option<Listing>): (Cursor, seq<string>)
    requires listing.Some? ==> |listing.value.ids| == |listing.value.fails|
  {
    if c.sinceUnix == 0 then (c.(sinceUnix := now), [])
    else if listing.None? then (c, [])
    else
      var p := Fetched(c.seen, listing.value.ids, listing.value.fails, |listing.value.ids|);
      (Cursor(if p.failed then c.sinceUnix else now, Retained(p.seen, listing.value.ids)), p.items)
  }

  class GmailPollState {
    var sinceUnix: int
    var seen: set<string>

    ghost function Model(): Cursor
      reads this
    {
      Cursor(sinceUnix, seen)
    }

    constructor ()
      ensures Model() == Cursor(0, {})
    {
      sinceUnix := 0;
      seen := {};
    }

    method FetchMessages(now: int, listing: Option<Listing>) returns (items: seq<string>)
      requires listing.Some? ==> |listing.value.ids| == |listing.value.fails|
      modifies this
      ensures (Model(), items) == Poll(old(Model()), now, listing)
    {
      items := [];
      if sinceUnix == 0 {
        sinceUnix := now;
        return;
      }
      if listing.None? {
        return;
      }
      var ids, fails := listing.value.ids, listing.value.fails;
      var failed := false;
      for i := 0 to |ids|
        invariant Pass(seen, items, failed) == Fetched(old(seen), ids, fails, i)
        invariant sinceUnix == old(sinceUnix)
      {
        if ids[i] in seen {
          continue;
        }
        if fails[i] {
          failed := true;
          continue;
        }
        seen := seen + {ids[i]};
        items := items + [ids[i]];
      }
      if !failed {
        sinceUnix := now;
      }
      BoundSeen(ids);
    }

    method BoundSeen(ids: seq<string>)
      modifies this`seen
      ensures seen == Retained(old(seen), ids)
    {
      var retained := {};
      for i := 0 to |ids|
        invariant retained == Retained(seen, ids[..i]) && seen == old(seen)
      {
        assert ids[..i + 1] == ids[..i] + [ids[i]];
        if ids[i] in seen {
          retained := retained + {ids[i]};
        }
      }
      assert ids[..|ids|] == ids;
      seen := retained;
    }
  }

  // ---------------------------------------------------------------- runs

  /** `base` is the time of the first poll, once there was one; `emitted` all ids ever emitted; `late` those
      that became visible two seconds or more behind the cursor. */
  datatype State = State(cursor: Cursor, mailbox: Mailbox, base: Option<int>, emitted: seq<string>, late: set<string>)

  /** A poll reads the clock before it lists: what arrives in between may be listed by it. */
  datatype Event = Arrive(id: string, time: int) | Polled(now: int, listing: Option<Listing>)

  function InWindow(mailbox: Mailbox, since: int): set<string> {
    set id | id in mailbox && mailbox[id] > since - OVERLAP
  }

  predicate IsLate(s: State, time: int) {
    s.base.Some? && time <= s.cursor.sinceUnix - OVERLAP
  }

  /** Mail is only added, each with a new id. The clock does not run backwards; a list that succeeds is
      complete, in any order, perhaps with repetitions. */
  ghost predicate Legal(s: State, e: Event) {
    match e
    case Arrive(id, _) => id !in s.mailbox
    case Polled(now, listing) =>
      && now > 0 && now >= s.cursor.sinceUnix
      && (listing.Some? ==>
            |listing.value.ids| == |listing.value.fails|
            && forall id :: id in listing.value.ids <==> id in InWindow(s.mailbox, s.cursor.sinceUnix))
  }

  ghost function Apply(s: State, e: Event): State
    requires Legal(s, e)
  {
    match e
    case Arrive(id, time) =>
      s.(mailbox := s.mailbox[id := time], late := if IsLate(s, time) then s.late + {id} else s.late)
    case Polled(now, listing) =>
      var (cursor, items) := Poll(s.cursor, now, listing);
      State(cursor, s.mailbox, if s.base.None? then Some(now) else s.base, s.emitted + items, s.late)
  }

  ghost predicate LegalRun(s: State, run: seq<Event>)
    decreases |run|
  {
    run == [] || (Legal(s, run[0]) && LegalRun(Apply(s, run[0]), run[1..]))
  }

  ghost function Final(s: State, run: seq<Event>): State
    requires LegalRun(s, run)
    decreases |run|
  {
    if run == [] then s else Final(Apply(s, run[0]), run[1..])
  }

  function Initial(mailbox: Mailbox): State {
    State(Cursor(0, {}), mailbox, None, [], {})
  }

  // ---------------------------------------------------------------- exactly once

  predicate Distinct(ids: seq<string>) {
    forall i, j | 0 <= i < j < |ids| :: ids[i] != ids[j]
  }

  /** The messages that polling is to emit: those from less than two seconds before the first poll on,
      unless they came late. */
  function Due(s: State): set<string> {
    if s.base.None? then {} else InWindow(s.mailbox, s.base.value) - s.late
  }

  /** Only due messages were emitted, each once; those still in the window are marked as seen; those not
      yet emitted still lie in the window. */
  ghost predicate Inv(s: State) {
    && (s.base.None? <==> s.cursor.sinceUnix == 0)
    && (s.base.Some? ==> 0 < s.base.value <= s.cursor.sinceUnix)
    && Distinct(s.emitted) && (forall id | id in s.emitted :: id in Due(s))
    && (forall id | id in s.cursor.seen :: id in s.emitted)
    && (forall id | id in s.emitted && id in InWindow(s.mailbox, s.cursor.sinceUnix) :: id in s.cursor.seen)
    && (forall id | id in Due(s) && id !in s.emitted :: id in InWindow(s.mailbox, s.cursor.sinceUnix))
    && (s.base.None? ==> s.late == {} && s.emitted == [])
    && (forall id | id in s.late :: id in s.mailbox && id !in InWindow(s.mailbox, s.cursor.sinceUnix))
  }

  lemma {:induction false} PassEmitsUnseen(seen: set<string>, ids: seq<string>, fails: seq<bool>, n: nat)
    requires n <= |ids| == |fails|
    ensures var p := Fetched(seen, ids, fails, n);
      && Distinct(p.items) && (forall id :: id in p.items <==> id in p.seen && id !in seen)
      && seen <= p.seen && (forall id | id in p.items :: id in ids)
      && (!p.failed ==> forall i | 0 <= i < n :: ids[i] in p.seen)
      && (forall i | 0 <= i < n && !fails[i] :: ids[i] in p.seen)
  {
    if n > 0 {
      PassEmitsUnseen(seen, ids, fails, n - 1);
    }
  }

  lemma DistinctJoin(a: seq<string>, b: seq<string>)
    requires Distinct(a) && Distinct(b) && forall id | id in b :: id !in a
    ensures Distinct(a + b)
  {
    forall i, j | 0 <= i < j < |a + b|
      ensures (a + b)[i] != (a + b)[j]
    {
      if i < |a| <= j {
        assert b[j - |a|] in b && a[i] in a;
      }
    }
  }

  lemma PollKeepsInv(s: State, now: int, listing: Option<Listing>)
    requires Inv(s) && Legal(s, Polled(now, listing))
    ensures Inv(Apply(s, Polled(now, listing)))
  {
    var t := Apply(s, Polled(now, listing));
    if s.base.Some? && listing.Some? {
      var ids, fails := listing.value.ids, listing.value.fails;
      var p := Fetched(s.cursor.seen, ids, fails, |ids|);
      PassEmitsUnseen(s.cursor.seen, ids, fails, |ids|);
      DistinctJoin(s.emitted, p.items);
      assert t.emitted == s.emitted + p.items;
    } else {
      assert t.emitted == s.emitted;
    }
  }

  lemma StepKeepsInv(s: State, e: Event)
    requires Inv(s) && Legal(s, e)
    ensures Inv(Apply(s, e))
  {
    if e.Polled? {
      PollKeepsInv(s, e.now, e.listing);
    }
  }

  lemma {:induction false} RunKeepsInv(s: State, run: seq<Event>)
    requires Inv(s) && LegalRun(s, run)
    ensures Inv(Final(s, run))
    decreases |run|
  {
    if run != [] {
      StepKeepsInv(s, run[0]);
      RunKeepsInv(Apply(s, run[0]), run[1..]);
    }
  }

  /** No id is emitted twice, only due messages are emitted, and every due message that was not emitted
      is in the window of the next poll. */
  lemma NeverTwiceNeverLost(mailbox: Mailbox, run: seq<Event>)
    requires LegalRun(Initial(mailbox), run)
    ensures var s := Final(Initial(mailbox), run);
      && Distinct(s.emitted) && (forall id | id in s.emitted :: id in Due(s))
      && forall id | id in Due(s) && id !in s.emitted :: id in InWindow(s.mailbox, s.cursor.sinceUnix)
  {
    RunKeepsInv(Initial(mailbox), run);
  }

  /** In seconds: what arrived two seconds or more before the first poll is never emitted, and neither is what
      became visible two seconds or more behind the cursor. */
  lemma NothingEarlierIsEmitted(mailbox: Mailbox, run: seq<Event>)
    requires LegalRun(Initial(mailbox), run)
    ensures var s := Final(Initial(mailbox), run);
      && (forall id | id in s.emitted :: s.base.Some? && id in s.mailbox && s.mailbox[id] >= s.base.value - 1)
      && forall id: string, time: int | id !in s.mailbox && s.base.Some? ::
           id in Apply(s, Arrive(id, time)).late <==> time <= s.cursor.sinceUnix - 2
  {
    RunKeepsInv(Initial(mailbox), run);
  }

  /** A poll emits each due message whose fetch succeeds; when none fails, exactly the due messages have
      been emitted. */
  lemma PollCatchesUp(mailbox: Mailbox, run: seq<Event>, now: int, listing: Listing)
    requires LegalRun(Initial(mailbox), run)
    requires var s := Final(Initial(mailbox), run); s.base.Some? && Legal(s, Polled(now, Some(listing)))
    ensures var s := Final(Initial(mailbox), run);
      var t := Apply(s, Polled(now, Some(listing)));
      && (forall i | 0 <= i < |listing.ids| && !listing.fails[i] :: listing.ids[i] in t.emitted)
      && ((forall fail | fail in listing.fails :: !fail) ==> forall id :: id in t.emitted <==> id in Due(t))
  {
    var s := Final(Initial(mailbox), run);
    var t := Apply(s, Polled(now, Some(listing)));
    RunKeepsInv(Initial(mailbox), run);
    PollKeepsInv(s, now, Some(listing));
    PassEmitsUnseen(s.cursor.seen, listing.ids, listing.fails, |listing.ids|);
    assert t.emitted == s.emitted + Fetched(s.cursor.seen, listing.ids, listing.fails, |listing.ids|).items;
    if forall fail | fail in listing.fails :: !fail {
      assert forall i | 0 <= i < |listing.ids| :: listing.fails[i] in listing.fails;
      forall id | id in Due(t)
        ensures id in t.emitted
      {
        if id !in s.emitted {
          assert id in listing.ids;
        }
      }
    }
  }

  /** A message from after the first poll is lost exactly if it was late: then no later poll emits it, and
      otherwise the next poll without failures has emitted it. */
  lemma LostExactlyIfLate(mailbox: Mailbox, before: seq<Event>, id: string, after: seq<Event>, now: int,
      listing: Listing)
    requires LegalRun(Initial(mailbox), before) && LegalRun(Final(Initial(mailbox), before), after)
    requires var s := Final(Initial(mailbox), before);
      s.base.Some? && id in InWindow(s.mailbox, s.base.value)
    requires var t := Final(Final(Initial(mailbox), before), after);
      Legal(t, Polled(now, Some(listing))) && forall fail | fail in listing.fails :: !fail
    ensures var s, t := Final(Initial(mailbox), before), Final(Final(Initial(mailbox), before), after);
      id in Apply(t, Polled(now, Some(listing))).emitted <==> id !in s.late
  {
    var s := Final(Initial(mailbox), before);
    RunKeepsInv(Initial(mailbox), before);
    RunsJoin(Initial(mailbox), before, after);
    var t := Final(s, after);
    KeepsBaseAndMail(s, after, id);
    PollCatchesUp(mailbox, before + after, now, listing);
  }

  lemma {:induction false} RunsJoin(s: State, first: seq<Event>, second: seq<Event>)
    requires LegalRun(s, first) && LegalRun(Final(s, first), second)
    ensures LegalRun(s, first + second) && Final(s, first + second) == Final(Final(s, first), second)
    decreases |first|
  {
    if first == [] {
      assert first + second == second;
    } else {
      RunsJoin(Apply(s, first[0]), first[1..], second);
      assert (first + second)[1..] == first[1..] + second;
    }
  }

  /** Later events keep the first poll's time and each message, and make no message late that is there. */
  lemma {:induction false} KeepsBaseAndMail(s: State, run: seq<Event>, id: string)
    requires LegalRun(s, run) && s.base.Some? && id in s.mailbox
    ensures var t := Final(s, run);
      t.base == s.base && id in t.mailbox && t.mailbox[id] == s.mailbox[id] && (id in t.late <==> id in s.late)
    decreases |run|
  {
    if run != [] {
      KeepsBaseAndMail(Apply(s, run[0]), run[1..], id);
    }
  }

  /** The first poll is meant to skip all earlier mail, but mail of the last two seconds before it is
      emitted: a message at second 9, a first poll at 10, a second at 20. */
  lemma BaselineIsNotSharp()
    ensures var run := [Arrive("m", 9), Polled(10, None), Polled(20, Some(Listing(["m"], [false])))];
      LegalRun(Initial(map[]), run) && Final(Initial(map[]), run).emitted == ["m"]
  {
    var e, f, g := Arrive("m", 9), Polled(10, None), Polled(20, Some(Listing(["m"], [false])));
    var run := [e, f, g];
    var a := Apply(Initial(map[]), e);
    var b := Apply(a, f);
    assert b == State(Cursor(10, {}), map["m" := 9], Some(10), [], {});
    assert Fetched({}, ["m"], [false], 1) == Pass({"m"}, ["m"], false) by {
      assert Fetched({}, ["m"], [false], 0) == Pass({}, [], false);
    }
    assert run[1..] == [f, g] && [f, g][1..] == [g] && [g][1..] == [];
    assert InWindow(b.mailbox, 10) == {"m"};
    assert Legal(b, g);
    assert LegalRun(Apply(b, g), []);
    assert LegalRun(b, [g]) && LegalRun(a, [f, g]);
    assert Final(b, [g]) == Apply(b, g);
  }
}
