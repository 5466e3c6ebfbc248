/**
  The fetch sequence: draw a candidate id in [1, 151], look up the creature,
  then its species, discard and redraw when the species is missing or not of
  generation "generation-i", otherwise look up the evolution chain and store
  its linearization. A non-ok response at any stage ends the whole invocation
  with one fixed error message.

  The network is replaced by an injected sequence of attempts, one per
  iteration of the source's unbounded loop; each attempt carries the random
  draw and the response each stage would give. When the sequence runs out
  before the loop has ended, the invocation is still retrying.
 */
module Fetcher {
  import opened Wrappers
  import opened Evolution
  import opened Ui

  /** The number of creatures in the first generation, the range of candidate ids. */
  const KANTO_SIZE := 151
  /** The generation tag a species must carry to be accepted. */
  const KANTO_GENERATION := "generation-i"
  /** The one message the component stores on any failure. */
  const FETCH_ERROR_MESSAGE := "Could not fetch data"

  /** A value of `Math.random()`: a real in [0, 1). */
  type Draw = u: real | 0.0 <= u < 1.0

  /** `Math.floor(u * 151) + 1`: the candidate id for a draw. */
  function CandidateId(u: Draw): (id: int)
    ensures 1 <= id <= KANTO_SIZE
  {
    (u * KANTO_SIZE as real).Floor + 1
  }

  /** Every id of the range is the candidate for some draw. */
  lemma EveryIdCanBeDrawn(id: int)
    requires 1 <= id <= KANTO_SIZE
    ensures exists u: Draw :: CandidateId(u) == id
  {
    var u: Draw := (id - 1) as real / KANTO_SIZE as real;
    assert u * KANTO_SIZE as real == (id - 1) as real;
    assert CandidateId(u) == id;
  }

  /** A response: usable (`ok`, with its parsed body) or not, with its status text. */
  datatype Response<T> = Ok(body: T) | NotOk(statusText: string)

  /** The parts of each parsed body the component reads. */
  datatype CreatureData = CreatureData(species: Option<Species>)
  datatype SpeciesData = SpeciesData(generationName: string)
  datatype EvolutionData = EvolutionData(chain: Option<Node>)

  /** One iteration of the loop: the random draw and the three lookups' responses. */
  datatype Attempt = Attempt(
    draw: Draw,
    creature: Response<CreatureData>,
    species: Response<SpeciesData>,
    evolution: Response<EvolutionData>)

  /** How one attempt ends: draw again, abort with a status text, or deliver a chain. */
  datatype Step = Retry | Abort(statusText: string) | Found(chain: seq<Species>)

  /** The outcome of one attempt, stage by stage. */
  function AttemptStep(a: Attempt): (step: Step)
    ensures step.Found? ==> ReportsKanto(a) && a.creature.Ok? && a.evolution.Ok?
    ensures step.Abort? ==> a.creature.NotOk? || a.species.NotOk? || a.evolution.NotOk?
  {
    match a.creature
    case NotOk(t) => Abort(t)
    case Ok(creature) =>
      if creature.species.None? then Retry
      else match a.species
        case NotOk(t) => Abort(t)
        case Ok(species) =>
          if species.generationName != KANTO_GENERATION then Retry
          else match a.evolution
            case NotOk(t) => Abort(t)
            case Ok(evolution) => Found(Extracted(evolution.chain))
  }

  /** The species lookup of this attempt reports the required generation. */
  predicate ReportsKanto(a: Attempt)
  {
    a.species.Ok? && a.species.body.generationName == KANTO_GENERATION
  }

  /**
    An attempt delivers a chain only when all three lookups succeed and the
    species is of the required generation; that chain is the linearization of
    the record's tree.
   */
  lemma FoundOnlyForKanto(a: Attempt)
    ensures AttemptStep(a).Found? <==>
      a.creature.Ok? && a.creature.body.species.Some? && ReportsKanto(a) && a.evolution.Ok?
    ensures AttemptStep(a).Found? ==> AttemptStep(a).chain == Extracted(a.evolution.body.chain)
  {
  }

  /**
    An attempt aborts exactly when the first stage it reaches answers not ok,
    and it carries that stage's status text.
   */
  lemma AbortOnFirstFailedStage(a: Attempt)
    ensures AttemptStep(a).Abort? <==>
      a.creature.NotOk? ||
      (a.creature.body.species.Some? &&
       (a.species.NotOk? || (ReportsKanto(a) && a.evolution.NotOk?)))
    ensures a.creature.NotOk? ==> AttemptStep(a) == Abort(a.creature.statusText)
    ensures a.creature.Ok? && a.creature.body.species.Some? && a.species.NotOk? ==>
      AttemptStep(a) == Abort(a.species.statusText)
    ensures a.creature.Ok? && a.creature.body.species.Some? && ReportsKanto(a) && a.evolution.NotOk? ==>
      AttemptStep(a) == Abort(a.evolution.statusText)
  {
  }

  /** How an invocation ends, with the index of the attempt that ended it. */
  datatype RunResult =
    | Succeeded(id: int, chain: seq<Species>, index: nat)
    | Failed(statusText: string, index: nat)
    | StillRetrying

  /**
    The invocation from attempt `k` on: when it ends, it ends at an attempt
    from `k` on that does not draw again, and the result reports what that
    attempt did.
   */
  function RunFrom(attempts: seq<Attempt>, k: nat): (r: RunResult)
    requires k <= |attempts|
    ensures !r.StillRetrying? ==> k <= r.index < |attempts|
    ensures r.Succeeded? ==>
      AttemptStep(attempts[r.index]) == Found(r.chain) && r.id == CandidateId(attempts[r.index].draw)
    ensures r.Failed? ==> AttemptStep(attempts[r.index]) == Abort(r.statusText)
    decreases |attempts| - k
  {
    if k == |attempts| then StillRetrying
    else match AttemptStep(attempts[k])
      case Retry => RunFrom(attempts, k + 1)
      case Abort(t) => Failed(t, k)
      case Found(c) => Succeeded(CandidateId(attempts[k].draw), c, k)
  }

  /**
    The invocation over the whole attempt sequence: it succeeds only on an
    attempt whose species is of the required generation, with an id in range.
   */
  function Run(attempts: seq<Attempt>): (r: RunResult)
    ensures !r.StillRetrying? ==> r.index < |attempts|
    ensures r.Succeeded? ==> ReportsKanto(attempts[r.index]) && 1 <= r.id <= KANTO_SIZE
  {
    RunFrom(attempts, 0)
  }

  /** The attempts in [lo, hi) all draw again. */
  predicate AllRetry(attempts: seq<Attempt>, lo: nat, hi: nat)
    requires lo <= hi <= |attempts|
  {
    forall j :: lo <= j < hi ==> AttemptStep(attempts[j]) == Retry
  }

  /** Attempts that draw again are passed over. */
  lemma {:induction false} RunFromSkipsRetries(attempts: seq<Attempt>, k: nat, m: nat)
    requires k <= m <= |attempts|
    requires AllRetry(attempts, k, m)
    ensures RunFrom(attempts, k) == RunFrom(attempts, m)
    decreases m - k
  {
    if k < m {
      RunFromSkipsRetries(attempts, k + 1, m);
    }
  }

  /** The invocation ends at the first attempt that does not draw again. */
  lemma {:induction false} RunEndsAtFirstDecisiveAttempt(attempts: seq<Attempt>, k: nat)
    requires k < |attempts| && AllRetry(attempts, 0, k)
    requires AttemptStep(attempts[k]) != Retry
    ensures Run(attempts) == RunFrom(attempts, k)
    ensures Run(attempts).index == k
  {
    RunFromSkipsRetries(attempts, 0, k);
  }

  /**
    An invocation succeeds at attempt `k` with chain `c` exactly when every
    earlier attempt drew again and attempt `k` delivered `c`.
   */
  lemma RunSucceedsIff(attempts: seq<Attempt>, k: nat, c: seq<Species>)
    ensures (Run(attempts).Succeeded? && Run(attempts).index == k && Run(attempts).chain == c) <==>
      (k < |attempts| && AllRetry(attempts, 0, k) && AttemptStep(attempts[k]) == Found(c))
  {
    if k < |attempts| && AllRetry(attempts, 0, k) && AttemptStep(attempts[k]) == Found(c) {
      RunEndsAtFirstDecisiveAttempt(attempts, k);
    }
    if Run(attempts).Succeeded? && Run(attempts).index == k {
      RunReachesItsIndex(attempts, 0);
    }
  }

  /**
    An invocation fails at attempt `k` with status text `t` exactly when every
    earlier attempt drew again and attempt `k` aborted with `t`.
   */
  lemma RunFailsIff(attempts: seq<Attempt>, k: nat, t: string)
    ensures (Run(attempts).Failed? && Run(attempts).index == k && Run(attempts).statusText == t) <==>
      (k < |attempts| && AllRetry(attempts, 0, k) && AttemptStep(attempts[k]) == Abort(t))
  {
    if k < |attempts| && AllRetry(attempts, 0, k) && AttemptStep(attempts[k]) == Abort(t) {
      RunEndsAtFirstDecisiveAttempt(attempts, k);
    }
    if Run(attempts).Failed? && Run(attempts).index == k {
      RunReachesItsIndex(attempts, 0);
    }
  }

  /** An invocation is still retrying exactly when every attempt drew again. */
  lemma RunStillRetryingIff(attempts: seq<Attempt>)
    ensures Run(attempts).StillRetrying? <==> AllRetry(attempts, 0, |attempts|)
  {
    if AllRetry(attempts, 0, |attempts|) {
      RunFromSkipsRetries(attempts, 0, |attempts|);
    }
    if Run(attempts).StillRetrying? {
      RunReachesItsIndex(attempts, 0);
    }
  }

  /**
    The attempts from `k` up to where the invocation ends all drew again, and
    the ending attempt is the one named by the result.
   */
  lemma {:induction false} RunReachesItsIndex(attempts: seq<Attempt>, k: nat)
    requires k <= |attempts|
    ensures RunFrom(attempts, k).StillRetrying? ==> AllRetry(attempts, k, |attempts|)
    ensures !RunFrom(attempts, k).StillRetrying? ==>
      var i := RunFrom(attempts, k).index;
      k <= i < |attempts| && AllRetry(attempts, k, i) && AttemptStep(attempts[i]) != Retry &&
      RunFrom(attempts, k) == RunFrom(attempts, i)
    decreases |attempts| - k
  {
    if k < |attempts| && AttemptStep(attempts[k]) == Retry {
      RunReachesItsIndex(attempts, k + 1);
    }
  }

  /**
    With a catalog in which only candidate `target` is of the required
    generation, an invocation that succeeds has drawn `target`.
   */
  lemma OnlyKantoCandidateAccepted(attempts: seq<Attempt>, target: int)
    requires forall j :: 0 <= j < |attempts| && CandidateId(attempts[j].draw) != target ==> !ReportsKanto(attempts[j])
    requires Run(attempts).Succeeded?
    ensures Run(attempts).id == target
  {
    RunReachesItsIndex(attempts, 0);
    var k := Run(attempts).index;
    FoundOnlyForKanto(attempts[k]);
  }

  /** A successful invocation yields the record's chain, rooted at the record's root. */
  lemma SucceededChainStartsAtRoot(attempts: seq<Attempt>)
    requires Run(attempts).Succeeded?
    ensures Run(attempts).index < |attempts|
    ensures var a := attempts[Run(attempts).index];
      a.evolution.Ok? && Run(attempts).chain == Extracted(a.evolution.body.chain) &&
      (a.evolution.body.chain.Some? ==>
        |Run(attempts).chain| >= 1 && Run(attempts).chain[0] == a.evolution.body.chain.value.species)
  {
    RunReachesItsIndex(attempts, 0);
    var k := Run(attempts).index;
    FoundOnlyForKanto(attempts[k]);
  }

  /**
    The state cells once the invocation has got as far as `r`: loading stays
    set while it retries; success stores the chain and leaves the error cell as
    it was; failure stores the fixed message and leaves the chain as it was.
   */
  function AfterRun(s: AppState, r: RunResult): (t: AppState)
    ensures t.isLoading <==> r.StillRetrying?
    ensures t.error == (if r.Failed? then Some(FETCH_ERROR_MESSAGE) else s.error)
    ensures t.evolutionChain == (if r.Succeeded? then r.chain else s.evolutionChain)
  {
    match r
    case StillRetrying => s.(isLoading := true)
    case Succeeded(_, c, _) => s.(isLoading := false, evolutionChain := c)
    case Failed(_, _) => s.(isLoading := false, error := Some(FETCH_ERROR_MESSAGE))
  }

  /** While the invocation retries, and so also right after it starts, the loading heading shows. */
  lemma RetryingShowsLoading(s: AppState, attempts: seq<Attempt>)
    requires Run(attempts).StillRetrying?
    ensures Render(AfterRun(s, Run(attempts))) == LoadingHeading(LOADING_TEXT)
    ensures Run([]) == StillRetrying
  {
  }

  /**
    A failed invocation ends loading, keeps the chain, and shows the fixed
    message, whatever stage and status text caused it.
   */
  lemma FailureShowsFixedMessage(s: AppState, r: RunResult)
    requires r.Failed?
    ensures AfterRun(s, r).evolutionChain == s.evolutionChain
    ensures !AfterRun(s, r).isLoading
    ensures Render(AfterRun(s, r)) == ErrorHeading(ERROR_PREFIX + FETCH_ERROR_MESSAGE)
  {
  }

  /**
    A successful invocation shows the gallery of its chain exactly when no
    error was set before it and the chain is not empty.
   */
  lemma SuccessShowsGalleryIff(s: AppState, r: RunResult)
    requires r.Succeeded?
    ensures !AfterRun(s, r).isLoading && AfterRun(s, r).evolutionChain == r.chain
    ensures Render(AfterRun(s, r)) == Gallery(Items(r.chain)) <==> s.error.None? && r.chain != []
  {
  }

  /**
    Nothing clears the error cell: after an error, even a successful
    invocation leaves it set, and the error heading hides the new chain.
   */
  lemma ErrorSurvivesSuccess(s: AppState, r: RunResult)
    requires s.error.Some? && r.Succeeded?
    ensures AfterRun(s, r).error == s.error
    ensures Render(AfterRun(s, r)) == ErrorHeading(ERROR_PREFIX + s.error.value)
  {
  }

  /** The component: its three state cells and the operations that change them. */
  class App {
    var evolutionChain: seq<Species>
    var error: Option<string>
    var isLoading: bool

    function State(): AppState
      reads this
    {
      AppState(isLoading, error, evolutionChain)
    }

    /** The cells' initial values. */
    constructor ()
      ensures State() == INITIAL_STATE
    {
      evolutionChain, error, isLoading := [], None, false;
    }

    /**
      One invocation of the fetch sequence over the injected attempts:
      loading is set once before the loop, discarded attempts touch no cell,
      success stores the chain, failure stores the fixed message, and loading
      is cleared when the invocation ends.
     */
    method FetchRandomKantoPokemonWithEvolution(attempts: seq<Attempt>) returns (r: RunResult)
      modifies this
      ensures r == Run(attempts)
      ensures State() == AfterRun(old(State()), r)
    {
      isLoading := true;
      r := StillRetrying;
      var k := 0;
      while k < |attempts|
        invariant 0 <= k <= |attempts|
        invariant r == StillRetrying
        invariant Run(attempts) == RunFrom(attempts, k)
        invariant State() == old(State()).(isLoading := true)
      {
        var attempt := attempts[k];
        var candidateId := CandidateId(attempt.draw);
        if attempt.creature.NotOk? {
          r := Failed(attempt.creature.statusText, k);
          break;
        }
        if attempt.creature.body.species.Some? {
          if attempt.species.NotOk? {
            r := Failed(attempt.species.statusText, k);
            break;
          }
          var kanto := attempt.species.body.generationName == KANTO_GENERATION;
          if kanto {
            if attempt.evolution.NotOk? {
              r := Failed(attempt.evolution.statusText, k);
              break;
            }
            var chain := ExtractEvolutionChain(attempt.evolution.body.chain);
            evolutionChain := chain;
            r := Succeeded(candidateId, chain, k);
            break;
          }
        }
        k := k + 1;
      }
      if r.Failed? {
        error := Some(FETCH_ERROR_MESSAGE);
      }
      if !r.StillRetrying? {
        isLoading := false;
      }
    }

    /** The button's handler; the button exists only in the gallery view. */
    method HandleFetchEvolution(attempts: seq<Attempt>) returns (r: RunResult)
      requires OffersFetchButton(Render(State()))
      modifies this
      ensures r == Run(attempts)
      ensures State() == AfterRun(old(State()), r)
      ensures old(State()).error.None?
    {
      r := FetchRandomKantoPokemonWithEvolution(attempts);
    }
  }

  /**
    A sequential session: the invocation made on mount, then button clicks,
    each given its own attempts. A click takes effect only while the gallery,
    and with it the button, is shown.
   */
  function Session(mount: seq<Attempt>, clicks: seq<seq<Attempt>>): (s: AppState)
    ensures Run(mount).Failed? ==> s == AfterRun(INITIAL_STATE, Run(mount))
    ensures Run(mount).StillRetrying? ==> s.isLoading
  {
    Clicks(AfterRun(INITIAL_STATE, Run(mount)), clicks)
  }

  /** The clicks of a session from state `s`; without the button, none takes effect. */
  function Clicks(s: AppState, clicks: seq<seq<Attempt>>): (t: AppState)
    ensures !OffersFetchButton(Render(s)) ==> t == s
    decreases |clicks|
  {
    if clicks == [] then s
    else if OffersFetchButton(Render(s)) then Clicks(AfterRun(s, Run(clicks[0])), clicks[1..])
    else Clicks(s, clicks[1..])
  }

  /**
    Once an invocation has ended in an error, the component offers no way to
    fetch again: every later click is impossible and the state never changes.
   */
  lemma {:induction false} ErrorIsFinal(s: AppState, clicks: seq<seq<Attempt>>)
    requires s.error.Some? && !s.isLoading
    ensures Clicks(s, clicks) == s
    decreases |clicks|
  {
    if clicks != [] {
      ErrorIsFinal(s, clicks[1..]);
    }
  }

  /**
    In a sequential session every click that takes effect starts from a state
    without an error, so a successful click always shows its chain (when not
    empty): the error cell never being cleared cannot be seen this way.
   */
  lemma ClickedSuccessShowsChain(s: AppState, attempts: seq<Attempt>)
    requires OffersFetchButton(Render(s))
    requires Run(attempts).Succeeded? && Run(attempts).chain != []
    ensures Render(AfterRun(s, Run(attempts))) == Gallery(Items(Run(attempts).chain))
  {
  }
}
