/** The search bar: its input state, the debounce timer that its effect
    schedules and cancels, and the guard on the search response. Time is an
    abstract clock that only moves forward through Advance events; the timer
    runtime and React's effect scheduling are folded into the transitions. */
module NavBar {
  import opened Movies
  import Text

  /** The debounce delay, in clock units. */
  const DebounceDelay: nat := 500

  /** A scheduled `setTimeout` callback: when it fires it searches for the
      input value its closure captured. */
  datatype Timer = Timer(deadline: int, query: string)

  /** The search bar's state: the clock, the input value and the one pending
      timer, if any. */
  datatype SearchBox = SearchBox(now: int, input: string, pending: Option<Timer>)

  /** An input change (at the current time) or the passage of time. */
  datatype InputEvent = Change(value: string) | Advance(elapsed: nat)

  /** A step's new state and the query it sent to the search endpoint, if any. */
  datatype Outcome = Outcome(box: SearchBox, search: Option<string>)

  /** The effect body: a timer that fires DebounceDelay from now with the
      current input. */
  function Schedule(b: SearchBox): (t: Timer)
    ensures t.query == b.input
    ensures t.deadline - b.now == DebounceDelay
  {
    Timer(b.now + DebounceDelay, b.input)
  }

  /** The first render: the input is empty and the effect runs once. */
  function Mount(now: int): (b: SearchBox)
    ensures b.input == "" && b.now == now
    ensures b.pending.Some? && b.pending.value.deadline == now + DebounceDelay
    ensures b.pending.value.query == ""
    ensures Consistent(b)
  {
    var b := SearchBox(now, "", None);
    b.(pending := Some(Schedule(b)))
  }

  /** The pending timer is for the current input, and due after now but no
      later than one delay from now. */
  ghost predicate Consistent(b: SearchBox) {
    b.pending.Some? ==>
      && b.pending.value.query == b.input
      && b.now < b.pending.value.deadline <= b.now + DebounceDelay
  }

  /** An event that really changes the input value. Setting the same value
      again makes React skip the re-render, so the effect does not re-run. */
  predicate Changes(b: SearchBox, e: InputEvent) {
    e.Change? && e.value != b.input
  }

  /** `onChange`: the input takes the new value at once; if it differs, the
      effect cleanup cancels the pending timer and a fresh one is scheduled. */
  function OnChange(b: SearchBox, value: string): (c: SearchBox)
    ensures c.input == value && c.now == b.now
    ensures value != b.input ==> c.pending == Some(Timer(b.now + DebounceDelay, value))
    ensures value == b.input ==> c == b
  {
    if value == b.input then b
    else
      var changed := b.(input := value, pending := None);
      changed.(pending := Some(Schedule(changed)))
  }

  /** The timer's callback: `if (searchInput.trim() !== '') fetchMovies(...)`. */
  function OnTimer(query: string): (r: Option<string>)
    ensures r.Some? <==> !Text.IsBlank(query)
    ensures r.Some? ==> r.value == query
  {
    Text.TrimEmptyIffBlank(query);
    if Text.Trim(query) != "" then Some(query) else None
  }

  /** Time passes; a timer that has come due fires once and is gone. */
  function OnAdvance(b: SearchBox, elapsed: nat): (o: Outcome)
    ensures o.box.now == b.now + elapsed && o.box.input == b.input
    ensures o.search.Some? <==>
      b.pending.Some? && b.pending.value.deadline <= o.box.now && !Text.IsBlank(b.pending.value.query)
    ensures o.search.Some? ==> o.search.value == b.pending.value.query
    ensures b.pending.Some? && b.pending.value.deadline <= o.box.now ==> o.box.pending.None?
    ensures b.pending.None? || o.box.now < b.pending.value.deadline ==> o.box.pending == b.pending
  {
    var later := b.(now := b.now + elapsed);
    match b.pending
    case Some(timer) =>
      if timer.deadline <= later.now then Outcome(later.(pending := None), OnTimer(timer.query))
      else Outcome(later, None)
    case None => Outcome(later, None)
  }

  /** The earliest time at which no search can still be pending: the due
      time of the pending timer, or now when there is none. */
  function Horizon(b: SearchBox): int {
    if b.pending.Some? then b.pending.value.deadline else b.now
  }

  function Step(b: SearchBox, e: InputEvent): (o: Outcome)
    ensures Consistent(b) ==> Consistent(o.box)
    ensures b.now <= o.box.now
    ensures Consistent(b) ==> Horizon(b) <= Horizon(o.box)
    ensures Changes(b, e) ==> Horizon(o.box) == b.now + DebounceDelay
    ensures o.search.Some? ==> e.Advance? && b.pending.Some? && b.pending.value.deadline <= o.box.now
  {
    match e
    case Change(value) => Outcome(OnChange(b, value), None)
    case Advance(elapsed) => OnAdvance(b, elapsed)
  }

  /** Event i of a run takes state ss[i] to state ss[i + 1]. */
  predicate Follows(ss: seq<SearchBox>, evs: seq<InputEvent>, i: nat)
    requires i < |evs| && |ss| == |evs| + 1
  {
    ss[i + 1] == Step(ss[i], evs[i]).box
  }

  /** ss lists the states of a run of evs from b: ss[i] is the state before
      event i, and the last one the state after the run. */
  predicate IsRun(b: SearchBox, evs: seq<InputEvent>, ss: seq<SearchBox>) {
    && |ss| == |evs| + 1
    && ss[0] == b
    && forall i :: 0 <= i < |evs| ==> Follows(ss, evs, i)
  }

  /** The states a run passes through. */
  function States(b: SearchBox, evs: seq<InputEvent>): (ss: seq<SearchBox>)
    ensures IsRun(b, evs, ss)
    decreases |evs|
  {
    if |evs| == 0 then [b]
    else
      var rest := States(Step(b, evs[0]).box, evs[1..]);
      var ss := [b] + rest;
      assert forall i :: 0 <= i < |evs| ==> Follows(ss, evs, i) by {
        forall i | 0 <= i < |evs| ensures Follows(ss, evs, i) {
          if i > 0 {
            assert Follows(rest, evs[1..], i - 1);
          }
        }
      }
      ss
  }

  /** The queries a run sends to the search endpoint, in order. */
  function Searches(b: SearchBox, evs: seq<InputEvent>): seq<string>
    decreases |evs|
  {
    if |evs| == 0 then []
    else
      var o := Step(b, evs[0]);
      (if o.search.Some? then [o.search.value] else []) + Searches(o.box, evs[1..])
  }

  /** Every state of a run from a consistent state is consistent. */
  lemma {:induction false} RunConsistent(b: SearchBox, evs: seq<InputEvent>, ss: seq<SearchBox>, k: nat)
    requires Consistent(b) && IsRun(b, evs, ss) && k <= |evs|
    ensures Consistent(ss[k])
  {
    if k > 0 {
      RunConsistent(b, evs, ss, k - 1);
      assert Follows(ss, evs, k - 1);
    }
  }

  /** Along a run neither the clock nor the horizon goes back. */
  lemma {:induction false} HorizonMonotone(b: SearchBox, evs: seq<InputEvent>, ss: seq<SearchBox>, i: nat, k: nat)
    requires Consistent(b) && IsRun(b, evs, ss) && i <= k <= |evs|
    ensures ss[i].now <= ss[k].now
    ensures Horizon(ss[i]) <= Horizon(ss[k])
    decreases k - i
  {
    if i < k {
      HorizonMonotone(b, evs, ss, i, k - 1);
      RunConsistent(b, evs, ss, k - 1);
      assert Follows(ss, evs, k - 1);
    }
  }

  /** After an input change at step i, no search can fire before the
      change's time plus DebounceDelay at any later step k. */
  lemma ChangePushesHorizon(b: SearchBox, evs: seq<InputEvent>, ss: seq<SearchBox>, i: nat, k: nat)
    requires Consistent(b) && IsRun(b, evs, ss) && i < k <= |evs|
    requires Changes(ss[i], evs[i])
    ensures ss[i].now + DebounceDelay <= Horizon(ss[k])
  {
    RunConsistent(b, evs, ss, i);
    assert Follows(ss, evs, i);
    HorizonMonotone(b, evs, ss, i + 1, k);
  }

  /** A search fires only when the timer of the current input comes due: it
      is triggered by the passage of time, it searches for the input as it is
      at that moment, that input is not blank, and every input change of the
      run happened at least DebounceDelay before it. */
  lemma SearchOnlyAfterQuietPeriod(b: SearchBox, evs: seq<InputEvent>, ss: seq<SearchBox>, j: nat)
    requires Consistent(b) && IsRun(b, evs, ss) && j < |evs|
    requires Step(ss[j], evs[j]).search.Some?
    ensures evs[j].Advance?
    ensures Step(ss[j], evs[j]).search.value == ss[j + 1].input
    ensures !Text.IsBlank(ss[j + 1].input)
    ensures forall i :: 0 <= i < j && Changes(ss[i], evs[i]) ==>
      ss[i].now + DebounceDelay <= ss[j + 1].now
  {
    RunConsistent(b, evs, ss, j);
    assert Follows(ss, evs, j);
    assert Horizon(ss[j]) <= ss[j + 1].now;
    forall i | 0 <= i < j && Changes(ss[i], evs[i])
      ensures ss[i].now + DebounceDelay <= ss[j + 1].now
    {
      ChangePushesHorizon(b, evs, ss, i, j);
    }
  }

  /** Whatever happened before, a change to v followed by at least one full
      delay of quiet searches exactly once, for v, unless v is blank; less
      than a delay of quiet searches nothing. */
  lemma ChangeThenQuietSearches(b: SearchBox, v: string, elapsed: nat)
    requires v != b.input
    ensures Searches(b, [Change(v), Advance(elapsed)]) ==
      if elapsed >= DebounceDelay && !Text.IsBlank(v) then [v] else []
  {
    var c := OnChange(b, v);
    var o := OnAdvance(c, elapsed);
    assert Step(b, Change(v)) == Outcome(c, None);
    assert [Change(v), Advance(elapsed)][1..] == [Advance(elapsed)];
    assert Searches(c, [Advance(elapsed)]) == (if o.search.Some? then [o.search.value] else []) + Searches(o.box, []);
  }

  /** A query superseded within the delay never reaches the endpoint:
      typing a, then c before DebounceDelay elapsed, and waiting, searches
      at most once, for c. */
  lemma SupersededQueryNeverSearched(b: SearchBox, a: string, early: nat, c: string, late: nat)
    requires a != b.input && c != a && early < DebounceDelay
    ensures Searches(b, [Change(a), Advance(early), Change(c), Advance(late)]) ==
      if late >= DebounceDelay && !Text.IsBlank(c) then [c] else []
  {
    var evs := [Change(a), Advance(early), Change(c), Advance(late)];
    var b1 := OnChange(b, a);
    var o2 := OnAdvance(b1, early);
    assert o2.search == None && o2.box.input == a;
    assert evs[1..][1..] == [Change(c), Advance(late)];
    ChangeThenQuietSearches(o2.box, c, late);
  }

  /** Unmounting runs the effect cleanup: the pending timer is cancelled. */
  function Unmount(b: SearchBox): (u: SearchBox)
    ensures u.pending.None? && u.input == b.input
  {
    b.(pending := None)
  }

  /** After unmounting, no amount of waiting sends a search. */
  lemma NoSearchAfterUnmount(b: SearchBox, elapsed: nat)
    ensures OnAdvance(Unmount(b), elapsed).search.None?
  {
  }

  /** `fetchMovies`' guard `if (data.results) onSearch(data.results)`: the
      same truthiness test as the page's initial load, so it is Movies.ResultsOf
      seen from the search bar. `onSearch` receives the `results` list verbatim
      exactly when the body carries one; a failed request or a body without
      `results` calls nothing. */
  function SearchCallback(response: Fetch<ListBody>): (r: Option<seq<Movie>>)
    ensures r.Some? <==> response.Received? && response.body.results.Some?
    ensures r.Some? ==> r.value == response.body.results.value
  {
    ResultsOf(response)
  }
}
