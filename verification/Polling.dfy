/** The polling hook of frontend/src/hooks/usePolling.ts: requests overlap and settle in any order. */
module Polling {
  import opened Prelude

  /** The hook's ref and its three pieces of state. */
  datatype State<T, E> = State(latest: nat, data: Option<T>, error: Option<E>, loading: bool)

  class Poller<T, E> {
    var latestRequestId: nat
    var data: Option<T>
    var error: Option<E>
    var loading: bool

    function Now(): State<T, E>
      reads this
    {
      State(latestRequestId, data, error, loading)
    }

    constructor ()
      ensures Now() == INITIAL()
    {
      latestRequestId, data, error, loading := 0, None, None, true;
    }

    /** The synchronous part of `refresh`: the request gets the next number. */
    method Start() returns (requestId: nat)
      modifies this
      ensures Now() == Started(old(Now())) && requestId == Now().latest
    {
      latestRequestId := latestRequestId + 1;
      return latestRequestId;
    }

    /** Mounting, or a change of interval or dependencies. */
    method Effect() returns (requestId: nat)
      modifies this
      ensures Now() == Started(old(Now()).(loading := true)) && requestId == Now().latest
    {
      loading := true;
      requestId := Start();
    }

    /** A request's promise resolves. */
    method Succeed(requestId: nat, value: T)
      modifies this
      ensures Now() == Succeeded(old(Now()), requestId, value)
    {
      if requestId != latestRequestId {
        return;
      }
      data, error, loading := Some(value), None, false;
    }

    /** A request's promise is rejected. */
    method Fail(requestId: nat, err: E)
      modifies this
      ensures Now() == Failed(old(Now()), requestId, err)
    {
      if requestId != latestRequestId {
        return;
      }
      error, loading := Some(err), false;
    }
  }

  function INITIAL<T, E>(): State<T, E> { State(0, None, None, true) }

  function Started<T, E>(s: State<T, E>): State<T, E> { s.(latest := s.latest + 1) }

  function Succeeded<T, E>(s: State<T, E>, id: nat, value: T): State<T, E> {
    if id != s.latest then s else State(s.latest, Some(value), None, false)
  }

  function Failed<T, E>(s: State<T, E>, id: nat, err: E): State<T, E> {
    if id != s.latest then s else State(s.latest, s.data, Some(err), false)
  }

  // ----- Interleavings -----

  datatype Outcome<T, E> = Value(value: T) | Error(error: E)

  datatype Event<T, E> = Effect | Refresh | Settle(id: nat, outcome: Outcome<T, E>)

  function Next<T, E>(s: State<T, E>, e: Event<T, E>): State<T, E> {
    match e
    case Effect => Started(s.(loading := true))
    case Refresh => Started(s)
    case Settle(id, Value(v)) => Succeeded(s, id, v)
    case Settle(id, Error(x)) => Failed(s, id, x)
  }

  function Run<T, E>(trace: seq<Event<T, E>>): State<T, E> {
    if trace == [] then INITIAL() else Next(Run(trace[..|trace| - 1]), trace[|trace| - 1])
  }

  /** Requests that have started and not settled. */
  function InFlight<T, E>(trace: seq<Event<T, E>>): set<nat> {
    if trace == [] then {}
    else
      var before, e := trace[..|trace| - 1], trace[|trace| - 1];
      if e.Settle? then InFlight(before) - {e.id} else InFlight(before) + {Run(before).latest + 1}
  }

  /** The hook starts with an effect, and only a request in flight settles. */
  ghost predicate Possible<T, E>(trace: seq<Event<T, E>>) {
    (trace != [] ==> trace[0].Effect?)
    && forall i :: 0 <= i < |trace| && trace[i].Settle? ==> trace[i].id in InFlight(trace[..i])
  }

  /** The settlements that change what is shown, in order. */
  function Written<T, E>(trace: seq<Event<T, E>>): seq<Event<T, E>> {
    if trace == [] then []
    else
      var before, e := trace[..|trace| - 1], trace[|trace| - 1];
      Written(before) + if e.Settle? && e.id == Run(before).latest then [e] else []
  }

  function LastValue<T, E>(written: seq<Event<T, E>>): Option<T> {
    if written == [] then None
    else
      var e := written[|written| - 1];
      if e.Settle? && e.outcome.Value? then Some(e.outcome.value) else LastValue(written[..|written| - 1])
  }

  function LastError<T, E>(written: seq<Event<T, E>>): Option<E> {
    if written == [] then None
    else
      var e := written[|written| - 1];
      if e.Settle? && e.outcome.Error? then Some(e.outcome.error) else None
  }

  lemma PossiblePrefix<T, E>(trace: seq<Event<T, E>>)
    requires Possible(trace) && trace != []
    ensures Possible(trace[..|trace| - 1])
    ensures trace[|trace| - 1].Settle? ==> trace[|trace| - 1].id in InFlight(trace[..|trace| - 1])
  {
    var before := trace[..|trace| - 1];
    forall i | 0 <= i < |before| && before[i].Settle? ensures before[i].id in InFlight(before[..i]) {
      assert before[..i] == trace[..i];
    }
  }

  /** What holds of every interleaving at every moment. */
  lemma {:induction false} Invariant<T, E>(trace: seq<Event<T, E>>)
    requires Possible(trace)
    ensures var s, written := Run(trace), Written(trace);
      (forall id :: id in InFlight(trace) ==> 1 <= id <= s.latest)
      && (forall i :: 0 <= i < |written| ==> written[i].Settle? && written[i].id <= s.latest)
      && (s.latest in InFlight(trace) ==> forall i :: 0 <= i < |written| ==> written[i].id < s.latest)
      && (trace != [] && s.latest !in InFlight(trace) ==> written != [] && written[|written| - 1].id == s.latest)
  {
    if trace != [] {
      PossiblePrefix(trace);
      Invariant(trace[..|trace| - 1]);
      WrittenStep(trace);
    }
  }

  lemma WrittenStep<T, E>(trace: seq<Event<T, E>>)
    requires trace != []
    ensures var before, e := trace[..|trace| - 1], trace[|trace| - 1];
      Written(trace) == if e.Settle? && e.id == Run(before).latest then Written(before) + [e] else Written(before)
  {
  }

  /** The requests whose outcomes are shown have strictly increasing start order: what is shown
      never goes back to an older request. */
  lemma {:induction false} NeverGoesBack<T, E>(trace: seq<Event<T, E>>)
    requires Possible(trace)
    ensures var written := Written(trace);
      forall i, j :: 0 <= i < j < |written| ==>
        written[i].Settle? && written[j].Settle? && written[i].id < written[j].id
  {
    if trace != [] {
      PossiblePrefix(trace);
      Invariant(trace[..|trace| - 1]);
      NeverGoesBack(trace[..|trace| - 1]);
      WrittenStep(trace);
    }
  }

  /** What is shown is the last value written, and an error only if the last outcome written was one. */
  lemma {:induction false} ShowsLastWritten<T, E>(trace: seq<Event<T, E>>)
    ensures Run(trace).data == LastValue(Written(trace)) && Run(trace).error == LastError(Written(trace))
  {
    if trace != [] {
      var before, e := trace[..|trace| - 1], trace[|trace| - 1];
      ShowsLastWritten(before);
      if e.Settle? && e.id == Run(before).latest {
        assert Written(trace)[..|Written(trace)| - 1] == Written(before);
      } else {
        assert Written(trace) == Written(before);
      }
    }
  }

  /** Once mounted, loading means that the newest request is in flight. */
  lemma {:induction false} LoadingMeansNewestInFlight<T, E>(trace: seq<Event<T, E>>)
    requires Possible(trace) && trace != [] && Run(trace).loading
    ensures Run(trace).latest in InFlight(trace)
  {
    var before, e := trace[..|trace| - 1], trace[|trace| - 1];
    PossiblePrefix(trace);
    Invariant(trace);
    if e.Settle? && before != [] { LoadingMeansNewestInFlight(before); }
  }

  lemma OlderSettlement<T, E>(before: seq<Event<T, E>>, e: Event<T, E>)
    requires e.Settle? && e.id != Run(before).latest
    ensures Run(before + [e]) == Run(before) && InFlight(before + [e]) == InFlight(before) - {e.id}
  {
    assert (before + [e])[..|before|] == before;
  }

  /** Once the newest request has settled no other settlement changes the state, until a new start. */
  lemma {:induction false} SettledStays<T, E>(trace: seq<Event<T, E>>, more: seq<Event<T, E>>)
    requires Possible(trace + more) && Possible(trace) && trace != [] && Run(trace).latest !in InFlight(trace)
    requires forall e :: e in more ==> e.Settle?
    ensures Run(trace + more) == Run(trace) && Run(trace).latest !in InFlight(trace + more)
  {
    if more == [] {
      assert trace + more == trace;
    } else {
      var fewer, e := more[..|more| - 1], more[|more| - 1];
      assert more == fewer + [e] && e in more;
      assert trace + more == (trace + fewer) + [e];
      assert (trace + more)[..|trace + more| - 1] == trace + fewer;
      PossiblePrefix(trace + more);
      SettledStays(trace, fewer);
      OlderSettlement(trace + fewer, e);
    }
  }

  /** When nothing is in flight, what is shown is the outcome of the newest request. */
  lemma QuietShowsNewest<T, E>(trace: seq<Event<T, E>>)
    requires Possible(trace) && trace != [] && InFlight(trace) == {}
    ensures var s, written := Run(trace), Written(trace);
      !s.loading && written != [] && written[|written| - 1].Settle? && written[|written| - 1].id == s.latest
      && (var outcome := written[|written| - 1].outcome;
          if outcome.Value? then s.data == Some(outcome.value) && s.error == None else s.error == Some(outcome.error))
  {
    Invariant(trace);
    ShowsLastWritten(trace);
    if Run(trace).loading { LoadingMeansNewestInFlight(trace); }
  }

  /** Starting a request without an effect changes nothing that is shown. */
  lemma RefreshShowsNothing<T, E>(trace: seq<Event<T, E>>)
    ensures var s, s' := Run(trace), Run(trace + [Refresh]);
      s'.loading == s.loading && s'.data == s.data && s'.error == s.error && s'.latest == s.latest + 1
  {
    assert (trace + [Refresh])[..|trace|] == trace;
  }

  /** An effect shows loading, and keeps what is shown beside it. */
  lemma EffectShowsLoading<T, E>(trace: seq<Event<T, E>>)
    ensures var s, s' := Run(trace), Run(trace + [Effect]);
      s'.loading && s'.data == s.data && s'.error == s.error && s'.latest == s.latest + 1
  {
    assert (trace + [Effect])[..|trace|] == trace;
  }

  /** After an effect the state is loading until the newest request of the moment settles: through every
      further start, and through every settlement of an older request. */
  lemma {:induction false} LoadingUntilSettled<T, E>(trace: seq<Event<T, E>>, more: seq<Event<T, E>>)
    requires forall i :: 0 <= i < |more| && more[i].Settle? ==> more[i].id != Run(trace + [Effect] + more[..i]).latest
    ensures Run(trace + [Effect] + more).loading
  {
    if more == [] {
      EffectShowsLoading(trace);
      assert trace + [Effect] + more == trace + [Effect];
    } else {
      var fewer, last := more[..|more| - 1], more[|more| - 1];
      forall i | 0 <= i < |fewer| && fewer[i].Settle? ensures fewer[i].id != Run(trace + [Effect] + fewer[..i]).latest {
        assert fewer[..i] == more[..i];
      }
      LoadingUntilSettled(trace, fewer);
      RunOneMore(trace + [Effect] + fewer, last);
      assert trace + [Effect] + more == (trace + [Effect] + fewer) + [last];
    }
  }

  lemma RunOneMore<T, E>(trace: seq<Event<T, E>>, e: Event<T, E>)
    ensures Run(trace + [e]) == Next(Run(trace), e)
  {
    assert (trace + [e])[..|trace|] == trace;
  }
}
