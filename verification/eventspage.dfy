/** The events page: splitting the fetched events into upcoming and past
    ones, and which of its three blocks it shows. */
module EventsPage {
  import opened Wrappers
  import opened Records

  /** An event as the page reads it. `date` is `None` when `new Date(...)`
      of the stored value is an invalid date. */
  datatype Event = Event(id: Id, title: string, description: string, date: Option<int>, location: string, image: string)

  /** `new Date(e.date) >= new Date()`: an invalid date compares false, so
      its event counts as past. */
  predicate IsUpcoming(e: Event, now: int) {
    e.date.Some? && e.date.value >= now
  }

  /** `events.filter(e => isUpcoming(e.date) == upcoming)`. */
  function Select(events: seq<Event>, now: int, upcoming: bool): (r: seq<Event>)
    ensures |r| <= |events|
    ensures forall i :: 0 <= i < |r| ==> r[i] in events && IsUpcoming(r[i], now) == upcoming
    ensures forall i :: 0 <= i < |events| && IsUpcoming(events[i], now) == upcoming ==> events[i] in r
  {
    if |events| == 0 then []
    else
      var rest := Select(events[1..], now, upcoming);
      assert forall i :: 1 <= i < |events| ==> events[i] == events[1..][i - 1];
      if IsUpcoming(events[0], now) == upcoming then [events[0]] + rest else rest
  }

  function Upcoming(events: seq<Event>, now: int): seq<Event> {
    Select(events, now, true)
  }

  function Past(events: seq<Event>, now: int): seq<Event> {
    Select(events, now, false)
  }

  /** Filtering a concatenation filters each part: the relative order of
      the fetched list is kept. */
  lemma {:induction false} SelectKeepsOrder(a: seq<Event>, b: seq<Event>, now: int, upcoming: bool)
    ensures Select(a + b, now, upcoming) == Select(a, now, upcoming) + Select(b, now, upcoming)
    decreases |a|
  {
    if |a| > 0 {
      assert (a + b)[1..] == a[1..] + b;
      SelectKeepsOrder(a[1..], b, now, upcoming);
    } else {
      assert a + b == b;
    }
  }

  /** Read at one instant, the clock puts every event in exactly one of the
      two lists, as often as it was fetched. */
  lemma {:induction false} Partition(events: seq<Event>, now: int)
    ensures multiset(Upcoming(events, now)) + multiset(Past(events, now)) == multiset(events)
    ensures |Upcoming(events, now)| + |Past(events, now)| == |events|
  {
    if |events| > 0 {
      Partition(events[1..], now);
      assert events == [events[0]] + events[1..];
    }
  }

  /** The clock moves forward between the two passes: with the upcoming
      pass reading `t1` and the past pass `t2 >= t1`, every event is listed
      at least once, and an event is listed twice exactly when its date
      falls in `[t1, t2)`. */
  lemma TwoReadings(events: seq<Event>, t1: int, t2: int, e: Event)
    requires t1 <= t2
    requires e in events
    ensures e in Upcoming(events, t1) || e in Past(events, t2)
    ensures e in Upcoming(events, t1) && e in Past(events, t2) <==> e.date.Some? && t1 <= e.date.value < t2
  {
  }

  /** Counted with multiplicity, the two lists hold every fetched event once
      plus, a second time, the events dated between the two readings:
      those that are past at `t2` yet upcoming at `t1`. With one reading
      (`t1 == t2`) that window is empty and this is `Partition`. */
  lemma {:induction false} TwoReadingsCount(events: seq<Event>, t1: int, t2: int)
    requires t1 <= t2
    ensures multiset(Upcoming(events, t1)) + multiset(Past(events, t2))
         == multiset(events) + multiset(Upcoming(Past(events, t2), t1))
  {
    if |events| > 0 {
      var e, rest := events[0], events[1..];
      assert events == [e] + rest;
      TwoReadingsCount(rest, t1, t2);
      var u, p := Upcoming(rest, t1), Past(rest, t2);
      SelectCons(e, rest, t1, true);
      SelectCons(e, rest, t2, false);
      SelectCons(e, p, t1, true);
      CountStep(e, rest, u, p, Upcoming(p, t1), IsUpcoming(e, t1), IsUpcoming(e, t2));
    }
  }

  /** The count of `TwoReadingsCount` carried over one more event, for each
      way the event can fall at the two readings (upcoming at the second
      reading implies upcoming at the first). */
  lemma CountStep(e: Event, rest: seq<Event>, u: seq<Event>, p: seq<Event>, w: seq<Event>, up1: bool, up2: bool)
    requires multiset(u) + multiset(p) == multiset(rest) + multiset(w)
    requires up2 ==> up1
    ensures multiset((if up1 then [e] else []) + u) + multiset((if !up2 then [e] else []) + p)
         == multiset([e] + rest) + multiset((if up1 && !up2 then [e] else []) + w)
  {
    var one := multiset([e]);
    var mu, mp, mr, mw := multiset(u), multiset(p), multiset(rest), multiset(w);
    var lhs := multiset((if up1 then [e] else []) + u) + multiset((if !up2 then [e] else []) + p);
    var rhs := multiset([e] + rest) + multiset((if up1 && !up2 then [e] else []) + w);
    assert rhs == one + mr + multiset((if up1 && !up2 then [e] else []) + w);
    if up2 {
      assert lhs == one + mu + mp && rhs == one + mr + mw;
    } else if up1 {
      assert lhs == one + mu + one + mp && rhs == one + mr + one + mw;
    } else {
      assert lhs == mu + one + mp && rhs == one + mr + mw;
    }
    forall z ensures lhs[z] == rhs[z] {
      assert (mu + mp)[z] == (mr + mw)[z];
    }
  }

  /** One step of the filter: the head is kept or dropped on its own. */
  lemma SelectCons(e: Event, rest: seq<Event>, now: int, upcoming: bool)
    ensures Select([e] + rest, now, upcoming)
         == (if IsUpcoming(e, now) == upcoming then [e] else []) + Select(rest, now, upcoming)
  {
    assert ([e] + rest)[0] == e;
    assert ([e] + rest)[1..] == rest;
  }

  /** What the page shows once loading has finished. */
  datatype View = View(upcomingSection: seq<Event>, pastSection: seq<Event>, noEventsNotice: bool)

  /** Each section is rendered when its list is non-empty; the notice when
      nothing was fetched. The upcoming pass reads the clock as `t1`, the
      past pass as `t2`. */
  function Render(events: seq<Event>, t1: int, t2: int): (v: View)
    ensures v.upcomingSection == Upcoming(events, t1)
    ensures v.pastSection == Past(events, t2)
    ensures v.noEventsNotice <==> |events| == 0
  {
    View(Upcoming(events, t1), Past(events, t2), |events| == 0)
  }

  /** The upcoming section appears exactly when some event is upcoming at
      its reading, the past one exactly when some event is not at its
      reading, and, as the clock does not run backwards, the notice exactly
      when neither appears. */
  lemma SectionsShown(events: seq<Event>, t1: int, t2: int)
    ensures |Render(events, t1, t2).upcomingSection| > 0 <==>
      exists i :: 0 <= i < |events| && IsUpcoming(events[i], t1)
    ensures |Render(events, t1, t2).pastSection| > 0 <==>
      exists i :: 0 <= i < |events| && !IsUpcoming(events[i], t2)
    ensures t1 <= t2 ==> (Render(events, t1, t2).noEventsNotice <==>
      |Render(events, t1, t2).upcomingSection| == 0 && |Render(events, t1, t2).pastSection| == 0)
  {
    if exists i :: 0 <= i < |events| && IsUpcoming(events[i], t1) {
      var i :| 0 <= i < |events| && IsUpcoming(events[i], t1);
      assert events[i] in Upcoming(events, t1);
    }
    if exists i :: 0 <= i < |events| && !IsUpcoming(events[i], t2) {
      var i :| 0 <= i < |events| && !IsUpcoming(events[i], t2);
      assert events[i] in Past(events, t2);
    }
    if |Upcoming(events, t1)| > 0 {
      var e := Upcoming(events, t1)[0];
      var i :| 0 <= i < |events| && events[i] == e;
      assert IsUpcoming(events[i], t1);
    }
    if |Past(events, t2)| > 0 {
      var e := Past(events, t2)[0];
      var i :| 0 <= i < |events| && events[i] == e;
      assert !IsUpcoming(events[i], t2);
    }
    if t1 <= t2 && |events| > 0 {
      TwoReadings(events, t1, t2, events[0]);
    }
  }

  /** An event without a readable date is listed with the past events. */
  lemma UndatedIsPast(e: Event, now: int)
    requires e.date.None?
    ensures Upcoming([e], now) == [] && Past([e], now) == [e]
  {
  }
}
