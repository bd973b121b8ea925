/** The search protocol of src/components/documents/product-picker.tsx: a
    debounce timer, a request number, and replies that arrive in any order. */
module ProductPicker {

  type Product = string
  type RequestId = nat
  type TimerId = nat

  datatype Request = Request(id: RequestId, term: string)
  datatype Outcome = Reply(found: seq<Product>) | Failure

  /** The component's refs and state, the host's timers and the calls in flight,
      and a record of what has happened. */
  datatype State = State(
    requestId: RequestId,                        // requestId.current
    debounce: TimerId,                           // debounce.current, 0 for null
    results: seq<Product>,
    loading: bool,
    timers: map<TimerId, Request>,               // set and neither fired nor cleared
    nextTimer: TimerId,
    inFlight: map<RequestId, string>,            // search(term) calls not settled
    settled: map<RequestId, Outcome>,            // record: how each call ended
    applied: seq<RequestId>,                     // record: replies shown, in order
    latestWhenApplied: seq<RequestId>)           // record: requestId at those moments

  datatype Event =
    | QueryChanged(term: string)
    | OpenChanged(open: bool)
    | TimerFires(timer: TimerId)
    | Settles(id: RequestId, outcome: Outcome)

  const INITIAL := State(0, 0, [], false, map[], 1, map[], map[], [], [])

  /** clearTimeout then setTimeout: the timer held by the ref goes, a new one
      takes its place under the next request number. */
  function RunSearch(s: State, term: string): State {
    s.(loading := true,
       requestId := s.requestId + 1,
       debounce := s.nextTimer,
       timers := (s.timers - {s.debounce})[s.nextTimer := Request(s.requestId + 1, term)],
       nextTimer := s.nextTimer + 1)
  }

  /** The code after `await search(term)`, for a reply or an exception. */
  function Settle(s: State, id: RequestId, outcome: Outcome): State {
    var done := s.(inFlight := s.inFlight - {id}, settled := s.settled[id := outcome]);
    var shown :=
      if outcome.Reply? && id == s.requestId
      then done.(results := outcome.found, applied := s.applied + [id],
                 latestWhenApplied := s.latestWhenApplied + [s.requestId])
      else done;
    if id == s.requestId then shown.(loading := false) else shown
  }

  predicate CanHappen(s: State, e: Event) {
    match e
    case QueryChanged(_) => true
    case OpenChanged(_) => true
    case TimerFires(timer) => timer in s.timers
    case Settles(id, _) => id in s.inFlight
  }

  function Next(s: State, e: Event): State
    requires CanHappen(s, e)
  {
    match e
    case QueryChanged(term) => RunSearch(s, term)
    case OpenChanged(open) => if open && s.results == [] then RunSearch(s, "") else s
    case TimerFires(timer) =>
      s.(timers := s.timers - {timer}, inFlight := s.inFlight[s.timers[timer].id := s.timers[timer].term])
    case Settles(id, outcome) => Settle(s, id, outcome)
  }

  // ----- the component, updating its refs in place

  class Picker {
    var requestId: RequestId
    var debounce: TimerId
    var results: seq<Product>
    var loading: bool
    var timers: map<TimerId, Request>
    var nextTimer: TimerId
    var inFlight: map<RequestId, string>
    ghost var settled: map<RequestId, Outcome>
    ghost var applied: seq<RequestId>
    ghost var latestWhenApplied: seq<RequestId>

    ghost function Current(): State
      reads this
    {
      State(requestId, debounce, results, loading, timers, nextTimer, inFlight, settled, applied, latestWhenApplied)
    }

    constructor ()
      ensures Current() == INITIAL
    {
      requestId, debounce, results, loading := 0, 0, [], false;
      timers, nextTimer, inFlight := map[], 1, map[];
      settled, applied, latestWhenApplied := map[], [], [];
    }

    method StartSearch(term: string)
      modifies this
      ensures Current() == RunSearch(old(Current()), term)
    {
      timers := timers - {debounce};
      loading := true;
      requestId := requestId + 1;
      timers := timers[nextTimer := Request(requestId, term)];
      debounce := nextTimer;
      nextTimer := nextTimer + 1;
    }

    method OnOpenChange(open: bool)
      modifies this
      ensures Current() == Next(old(Current()), OpenChanged(open))
    {
      if open && results == [] {
        StartSearch("");
      }
    }

    method OnQueryChange(term: string)
      modifies this
      ensures Current() == Next(old(Current()), QueryChanged(term))
    {
      StartSearch(term);
    }

    method Fire(timer: TimerId)
      requires timer in timers
      modifies this
      ensures Current() == Next(old(Current()), TimerFires(timer))
    {
      var request := timers[timer];
      timers := timers - {timer};
      inFlight := inFlight[request.id := request.term];
    }

    method Resume(id: RequestId, outcome: Outcome)
      requires id in inFlight
      modifies this`inFlight, this`settled, this`results, this`applied, this`latestWhenApplied, this`loading
      ensures Current() == Next(old(Current()), Settles(id, outcome))
    {
      inFlight, settled := inFlight - {id}, settled[id := outcome];
      if outcome.Reply? {
        if id == requestId {
          results := outcome.found;
          applied, latestWhenApplied := applied + [id], latestWhenApplied + [requestId];
        }
      }
      if id == requestId {
        loading := false;
      }
    }
  }

  // ----- the invariant

  predicate TimersWell(s: State) {
    && s.debounce < s.nextTimer
    && (forall t | t in s.timers :: t == s.debounce && s.timers[t].id == s.requestId > 0)
  }

  /** Every request number is waiting on the timer, cleared, in flight or settled;
      a number is used for one call only. */
  predicate RequestsWell(s: State) {
    && (forall id | id in s.inFlight :: 0 < id <= s.requestId && id !in s.settled)
    && (forall id | id in s.settled :: 0 < id <= s.requestId)
    && (forall t | t in s.timers :: s.timers[t].id !in s.inFlight && s.timers[t].id !in s.settled)
    && (s.requestId > 0 ==>
         s.requestId in s.settled || s.requestId in s.inFlight || s.debounce in s.timers)
  }

  /** `loading` says precisely that the latest request has not settled. */
  predicate LoadingWell(s: State) {
    s.loading <==> s.requestId > 0 && s.requestId !in s.settled
  }

  predicate AppliedWell(s: State) {
    && s.applied == s.latestWhenApplied
    && (forall i | 0 <= i < |s.applied| ::
         0 < s.applied[i] <= s.requestId && s.applied[i] in s.settled && s.settled[s.applied[i]].Reply?)
    && (forall i, j | 0 <= i < j < |s.applied| :: s.applied[i] < s.applied[j])
  }

  /** The list on screen is the reply applied last, if any was. */
  predicate ResultsWell(s: State) {
    && (s.applied == [] ==> s.results == [])
    && (s.applied != [] ==>
         var last := s.applied[|s.applied| - 1];
         last in s.settled && s.settled[last] == Reply(s.results))
    && (s.requestId in s.settled && s.settled[s.requestId].Reply? ==>
         s.applied != [] && s.applied[|s.applied| - 1] == s.requestId)
  }

  predicate Inv(s: State) {
    TimersWell(s) && RequestsWell(s) && LoadingWell(s) && AppliedWell(s) && ResultsWell(s)
  }

  lemma NextKeepsInv(s: State, e: Event)
    requires Inv(s) && CanHappen(s, e)
    ensures Inv(Next(s, e))
  {
    match e {
      case QueryChanged(term) => RunSearchKeepsInv(s, term);
      case OpenChanged(open) => RunSearchKeepsInv(s, "");
      case TimerFires(timer) => FiringKeepsInv(s, timer);
      case Settles(id, outcome) => SettleKeepsInv(s, id, outcome);
    }
  }

  lemma RunSearchKeepsInv(s: State, term: string)
    requires Inv(s)
    ensures Inv(RunSearch(s, term))
  {
  }

  lemma FiringKeepsInv(s: State, timer: TimerId)
    requires Inv(s) && timer in s.timers
    ensures Inv(Next(s, TimerFires(timer)))
  {
    var s' := Next(s, TimerFires(timer));
    assert timer == s.debounce && s.timers[timer].id == s.requestId;
    assert s'.inFlight.Keys == s.inFlight.Keys + {s.requestId};
    assert s'.timers.Keys == s.timers.Keys - {timer};
  }

  lemma SettleKeepsInv(s: State, id: RequestId, outcome: Outcome)
    requires Inv(s) && id in s.inFlight
    ensures Inv(Settle(s, id, outcome))
  {
    var s' := Settle(s, id, outcome);
    assert s'.settled.Keys == s.settled.Keys + {id};
    assert s'.inFlight.Keys == s.inFlight.Keys - {id};
    if outcome.Reply? && id == s.requestId {
      SettleLatest(s, id, outcome);
    } else {
      SettleOther(s, id, outcome);
    }
  }

  lemma SettleLatest(s: State, id: RequestId, outcome: Outcome)
    requires Inv(s) && id in s.inFlight && outcome.Reply? && id == s.requestId
    ensures AppliedWell(Settle(s, id, outcome)) && ResultsWell(Settle(s, id, outcome))
  {
    forall i | 0 <= i < |s.applied|
      ensures s.applied[i] < id
    {
      assert s.applied[i] in s.settled;
    }
  }

  lemma SettleOther(s: State, id: RequestId, outcome: Outcome)
    requires Inv(s) && id in s.inFlight && !(outcome.Reply? && id == s.requestId)
    ensures AppliedWell(Settle(s, id, outcome)) && ResultsWell(Settle(s, id, outcome))
  {
  }

  // ----- runs

  ghost predicate IsRun(run: seq<State>, events: seq<Event>) {
    && |run| == |events| + 1 && run[0] == INITIAL
    && (forall i | 0 <= i < |events| :: CanHappen(run[i], events[i]) && run[i + 1] == Next(run[i], events[i]))
  }

  lemma {:induction false} InvThroughRun(run: seq<State>, events: seq<Event>, i: nat)
    requires IsRun(run, events) && i < |run|
    ensures Inv(run[i])
  {
    if i > 0 {
      InvThroughRun(run, events, i - 1);
      NextKeepsInv(run[i - 1], events[i - 1]);
    }
  }

  // ----- what is searched for

  /** The user types, or opens the picker while it shows nothing. */
  predicate StartsSearch(s: State, e: Event) {
    e.QueryChanged? || (e.OpenChanged? && e.open && s.results == [])
  }

  function TermOf(e: Event): string {
    if e.QueryChanged? then e.term else ""
  }

  /** The terms of the searches started so far, in order: what was typed, and
      the empty term for an opening. */
  ghost function Searched(run: seq<State>, events: seq<Event>, i: nat): seq<string>
    requires IsRun(run, events) && i < |run|
  {
    if i == 0 then []
    else if StartsSearch(run[i - 1], events[i - 1]) then Searched(run, events, i - 1) + [TermOf(events[i - 1])]
    else Searched(run, events, i - 1)
  }

  /** As many requests as terms; whatever waits or is in flight is a search for
      the term of its number. */
  predicate CarriesTerms(s: State, terms: seq<string>) {
    && s.requestId == |terms|
    && (forall t | t in s.timers ::
         0 < s.timers[t].id <= |terms| && s.timers[t].term == terms[s.timers[t].id - 1])
    && (forall id | id in s.inFlight :: 0 < id <= |terms| && s.inFlight[id] == terms[id - 1])
  }

  lemma SearchCarriesTerms(s: State, term: string, terms: seq<string>)
    requires CarriesTerms(s, terms)
    ensures CarriesTerms(RunSearch(s, term), terms + [term])
  {
  }

  lemma OtherEventCarriesTerms(s: State, e: Event, terms: seq<string>)
    requires CarriesTerms(s, terms) && CanHappen(s, e) && !StartsSearch(s, e)
    ensures CarriesTerms(Next(s, e), terms)
  {
  }

  /** The n-th search started is request n, and carries its own term for as long
      as it waits or is in flight; so the latest request is always for what was
      searched for last. */
  lemma {:induction false} RequestsCarryTheirTerms(run: seq<State>, events: seq<Event>, i: nat)
    requires IsRun(run, events) && i < |run|
    ensures CarriesTerms(run[i], Searched(run, events, i))
  {
    if i > 0 {
      RequestsCarryTheirTerms(run, events, i - 1);
      hide CarriesTerms;
      if StartsSearch(run[i - 1], events[i - 1]) {
        SearchCarriesTerms(run[i - 1], TermOf(events[i - 1]), Searched(run, events, i - 1));
      } else {
        OtherEventCarriesTerms(run[i - 1], events[i - 1], Searched(run, events, i - 1));
      }
    } else {
      assert run[0] == INITIAL;
    }
  }

  /** At most one timer is ever pending, and it carries the latest request. */
  lemma OneTimer(run: seq<State>, events: seq<Event>, i: nat, t: TimerId, u: TimerId)
    requires IsRun(run, events) && i < |run|
    requires t in run[i].timers && u in run[i].timers
    ensures t == u && run[i].timers[t].id == run[i].requestId
  {
    InvThroughRun(run, events, i);
  }

  /** A reply is shown only while its request is the latest, so the numbers of
      the replies shown strictly increase: an old reply never replaces a newer. */
  lemma AppliedInOrder(run: seq<State>, events: seq<Event>, i: nat)
    requires IsRun(run, events) && i < |run|
    ensures run[i].applied == run[i].latestWhenApplied
    ensures forall j, k | 0 <= j < k < |run[i].applied| :: run[i].applied[j] < run[i].applied[k]
  {
    InvThroughRun(run, events, i);
  }

  /** The spinner shows exactly while the latest request waits or is in flight,
      so it is off once nothing is pending. */
  lemma LoadingIsExact(run: seq<State>, events: seq<Event>, i: nat)
    requires IsRun(run, events) && i < |run|
    ensures run[i].loading <==> run[i].timers != map[] || run[i].requestId in run[i].inFlight
    ensures run[i].timers == map[] && run[i].inFlight == map[] ==> !run[i].loading
  {
    InvThroughRun(run, events, i);
    var s := run[i];
    if s.timers != map[] {
      var t :| t in s.timers;
    }
    if s.debounce in s.timers {
      assert s.timers != map[];
    }
  }

  /** Once the latest request has succeeded the list is its reply; while it is
      unsettled or has failed the list is still the last reply shown before. */
  lemma ResultsAreLatestReply(run: seq<State>, events: seq<Event>, i: nat)
    requires IsRun(run, events) && i < |run|
    ensures var s := run[i];
            && (s.requestId in s.settled && s.settled[s.requestId].Reply? ==>
                 s.results == s.settled[s.requestId].found)
            && (s.applied == [] ==> s.results == [])
            && (s.applied != [] ==>
                 var last := s.applied[|s.applied| - 1]; last in s.settled && s.settled[last] == Reply(s.results))
  {
    InvThroughRun(run, events, i);
  }

  /** From any point of any run, if the user stops and the pending timer fires
      and its search answers, the list is that answer and the spinner is off. */
  lemma QuietEnding(run: seq<State>, events: seq<Event>, i: nat, t: TimerId, found: seq<Product>)
    requires IsRun(run, events) && i < |run| && t in run[i].timers
    ensures var fired := Next(run[i], TimerFires(t));
            var id := run[i].timers[t].id;
            && CanHappen(fired, Settles(id, Reply(found)))
            && var end := Next(fired, Settles(id, Reply(found)));
               end.results == found && !end.loading && end.timers == map[]
  {
    InvThroughRun(run, events, i);
    var s := run[i];
    assert s.timers.Keys == {t};
    assert (s.timers - {t}).Keys == {};
  }
}
