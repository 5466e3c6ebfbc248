# Random first-generation evolution viewer, modelled in Dafny

The component picks a random creature id in [1, 151] and looks it up in the
species catalog. It then looks up the creature's species. It draws again when
the species is missing or its generation is not `"generation-i"`. Otherwise
it fetches the evolution-chain record and linearizes its tree. It starts at
the root and follows only the first `evolves_to` child at each level. Finally
it renders one sprite per species on that path. Any non-ok lookup ends the
invocation with the fixed message `"Could not fetch data"`.

The model has five modules:

- `Wrappers`: the `Option` type used for `null` and for missing fields.
- `Evolution`: the evolution tree (`Node`), the recursive linearization `Chain`
  and the imperative `ExtractEvolutionChain` loop proved equal to it. It also
  holds the first-child spine (`IsFirstChildSpine`, `Spine`) as an independent
  characterization, and a tree-membership predicate `Occurs`.
- `Sprites`: `String.prototype.split` for one separator with its inverse `Join`,
  and the sprite id `url.split("/")[6]` with the image locator built from it.
- `Ui`: the three state cells (`AppState`) and the render selector `Render`.
- `Fetcher`: one attempt of the loop (`AttemptStep`) and the whole invocation
  over injected attempts (`Run`). It also holds the effect of an invocation on
  the cells (`AfterRun`), the class `App` whose method runs the loop on the
  cells, and a sequential session of mount plus button clicks (`Session`).

The network is a parameter. Each loop iteration is an `Attempt`: the value
`Math.random()` returned, plus the response each of the three lookups gives.
A response is either `Ok` with the parts of the parsed body the component
reads, or `NotOk` with its status text. The source's loop has no bound. The
model runs over a finite attempt sequence. When the sequence runs out before
the loop ends, the result is `StillRetrying`: the invocation has not finished
and `isLoading` is still set.

Behaviour of the code worth knowing:

- The evolution record's `chain` field may be absent. `while (current)` then
  yields an empty chain, so the input is an `Option<Node>` and the empty-chain
  render branch can be reached.
- The fetch button is rendered only in the gallery view (src/App.js:134). The
  loading, error and empty views have no button. So once an invocation fails,
  nothing in the component can start another one (`ErrorIsFinal`). The same
  holds after an empty chain is stored (`Clicks`).
- The error cell is never reset (src/App.js:71). A success after an error
  leaves the error shown (`ErrorSurvivesSuccess`). But a click is possible
  only from the gallery, where no error is set. So in a sequential session
  every click that takes effect starts without an error
  (`ClickedSuccessShowsChain`, `HandleFetchEvolution`). The stuck error can
  only show when two invocations overlap, and overlapping invocations are
  not modelled.
- A URL with fewer than seven `/`-separated segments has no element at index 6.
  The template literal then prints `undefined`, and `SpriteSrc` models that.

## Model

| member | source | states |
|---|---|---|
| Evolution.Chain | src/App.js:80-95 | The recursive linearization is never empty and starts with the root's species |
| Evolution.Extracted | src/App.js:80-95 | The extraction of `data.chain` is empty exactly when the field is absent, and otherwise starts with the root's species |
| Evolution.ExtractEvolutionChain | src/App.js:80-95 | The push-and-descend loop returns exactly the recursive linearization of `data.chain`: empty when the field is absent, otherwise non-empty and starting with the root's species |
| Evolution.Spine | src/App.js:84-92 | Every tree has a first-child spine: a path from the root along first children that ends at a node without children |
| Evolution.SpineUnique | src/App.js:86-92 | The first-child spine of a tree is unique, so the walk's stopping point is determined |
| Evolution.ChainFollowsSpine | src/App.js:84-92 | The chain's length is the spine's length, and its i-th entry is the species of the i-th spine node |
| Evolution.ChainOfChildlessRoot | src/App.js:84-92 | A childless root gives a one-element chain holding its species |
| Evolution.ChainStepsToFirstChild | src/App.js:86-88 | Each entry after the first is the species of the previous spine node's first child, which exists |
| Evolution.ChainIgnoresLaterChildren | src/App.js:86-88 | Replacing all children after the first leaves the chain unchanged |
| Evolution.ChainSpeciesOccur | src/App.js:84-88 | Every species on the chain belongs to a node of the tree |
| Evolution.ExclusiveToLaterChildIsDropped | src/App.js:86-88 | A species found only under a non-first child (not at the node, not under the first child) never appears on the chain |
| Sprites.Split | src/App.js:129 | `split` returns at least one piece |
| Sprites.SplitLength | src/App.js:129 | `split` returns one more piece than the string has separators |
| Sprites.SplitPiecesFree | src/App.js:129 | No piece returned by `split` contains the separator |
| Sprites.JoinSplit | src/App.js:129 | Joining the pieces with the separator gives back the string |
| Sprites.SplitJoin | src/App.js:129 | Splitting a join of separator-free pieces gives back the pieces |
| Sprites.SpriteId | src/App.js:129 | `url.split("/")[6]` exists exactly when the URL has at least six slashes, and it never contains a slash |
| Sprites.SpriteIdOfSegments | src/App.js:129 | For a URL joined from slash-free segments, the sprite id is segment 6 whatever it holds |
| Sprites.SpriteIdOfSpeciesUrl | src/App.js:129 | A catalog species reference `https://pokeapi.co/api/v2/pokemon-species/<d>/` yields `d`, with no check that `d` is numeric |
| Sprites.SpriteSrc | src/App.js:129 | The image `src` is the sprite template filled with segment 6, or with `undefined` when the URL has fewer than six slashes |
| Sprites.SpriteSrcOfSpeciesUrl | src/App.js:129 | The sprite of a catalog species reference `https://pokeapi.co/api/v2/pokemon-species/<d>/` is `<base><d>.png`, whatever `d` holds |
| Ui.Item | src/App.js:127-131 | One item shows the species name as `alt` and caption, and the sprite for its URL's segment 6 (or `undefined`) as `src` |
| Ui.ItemOfSpeciesUrl | src/App.js:127-131 | The item of a catalog species reference `https://pokeapi.co/api/v2/pokemon-species/<d>/` shows the image `<base><d>.png`, with the species name as `alt` and as caption |
| Ui.Items | src/App.js:126-132 | One sprite item per chain entry, in chain order |
| Ui.Render | src/App.js:107-136 | Render precedence: the loading heading exactly when loading; else the error heading `Error: <error>` exactly when an error is set; else nothing exactly when the chain is empty; otherwise the gallery of the chain's items |
| Ui.ButtonOnlyWithoutError | src/App.js:108-134 | The fetch button is shown only when not loading, no error is set and the chain is non-empty |
| Fetcher.CandidateId | src/App.js:17 | `Math.floor(Math.random() * 151) + 1` is always within [1, 151] |
| Fetcher.EveryIdCanBeDrawn | src/App.js:17 | Every id in [1, 151] is produced by some draw |
| Fetcher.AttemptStep | src/App.js:16-67 | One iteration delivers a chain only when the species is of `generation-i` and the first and third lookups are ok; it aborts only when some lookup is not ok |
| Fetcher.FoundOnlyForKanto | src/App.js:31-65 | An attempt delivers a chain exactly when all three lookups are ok, the creature has a species and that species is of `generation-i`; the chain is the record's linearization |
| Fetcher.AbortOnFirstFailedStage | src/App.js:23-52 | An attempt aborts exactly when the first stage it reaches is not ok, and it carries that stage's status text |
| Fetcher.RunFrom | src/App.js:15-68 | The loop from attempt k: when it ends, it ends at an attempt from k on that did not draw again, reporting that attempt's chain and id, or its status text |
| Fetcher.Run | src/App.js:15-68 | The whole loop: a success is always on an attempt whose species is of `generation-i`, with an id in [1, 151] |
| Fetcher.RunFromSkipsRetries | src/App.js:15-68 | Attempts that draw again are passed over without effect on the result |
| Fetcher.RunEndsAtFirstDecisiveAttempt | src/App.js:15-68 | The invocation ends at the first attempt that does not draw again |
| Fetcher.RunReachesItsIndex | src/App.js:15-68 | Every attempt before the one that ends the invocation drew again, and that attempt did not |
| Fetcher.RunSucceedsIff | src/App.js:15-68 | The invocation succeeds at attempt k with chain c if and only if every earlier attempt drew again and attempt k delivered c |
| Fetcher.RunFailsIff | src/App.js:15-71 | The invocation fails at attempt k with text t if and only if every earlier attempt drew again and attempt k aborted with t |
| Fetcher.RunStillRetryingIff | src/App.js:15-68 | The invocation is still looping if and only if every attempt so far drew again |
| Fetcher.OnlyKantoCandidateAccepted | src/App.js:44-47 | If only candidate `target` is reported as `generation-i`, a successful invocation has drawn `target` |
| Fetcher.SucceededChainStartsAtRoot | src/App.js:56-62 | A success stores the linearization of the evolution record it fetched, starting with that record's root species |
| Fetcher.AfterRun | src/App.js:11-75 | The cells after an invocation: loading is set exactly while it retries; the error becomes the fixed message on failure and is otherwise untouched; the chain is replaced on success and is otherwise untouched |
| Fetcher.RetryingShowsLoading | src/App.js:11 | While the invocation retries, including right after it starts, the loading heading is shown |
| Fetcher.FailureShowsFixedMessage | src/App.js:69-75 | A failure at any stage stops loading, keeps the chain and shows `Error: Could not fetch data` |
| Fetcher.SuccessShowsGalleryIff | src/App.js:62-75 | A success stops loading and stores the chain; the gallery of that chain is shown if and only if no error was set before and the chain is non-empty |
| Fetcher.ErrorSurvivesSuccess | src/App.js:62-71 | A success does not clear an earlier error, and the error heading hides the new chain |
| Fetcher.App.constructor | src/App.js:5-7 | The cells start as: empty chain, no error, not loading |
| Fetcher.App.FetchRandomKantoPokemonWithEvolution | src/App.js:10-77 | The loop's result is `Run(attempts)`, and the new state is `AfterRun`: a success stores the chain and keeps the error, a failure stores the fixed message and keeps the chain, and loading is cleared once the invocation ends. By the loop invariant (not the postcondition), loading is set once before the loop and discarded attempts change no cell |
| Fetcher.App.HandleFetchEvolution | src/App.js:103-105 | A click runs one invocation; it can only happen from the gallery, so it always starts with no error set |
| Fetcher.Session | src/App.js:97-105 | Mount runs one invocation and clicks follow; after a failed mount the state is that failure's state whatever is clicked, and a mount still retrying keeps loading |
| Fetcher.Clicks | src/App.js:103-134 | Clicks take effect only while the button is shown; from a state without it, no click changes anything |
| Fetcher.ErrorIsFinal | src/App.js:98-134 | After a failed invocation no click can take effect, so the state never changes again |
| Fetcher.ClickedSuccessShowsChain | src/App.js:103-134 | A click that takes effect and succeeds with a non-empty chain always shows that chain's gallery |

## Left out

- Network I/O (`fetch`, `response.json()`, the catalog URLs) is an injected `Response` per stage. A transport rejection, a body that fails to parse and a non-ok status are all one `NotOk(statusText)`, because the component handles them in the same `catch`.
- Termination of the retry loop: the source loop has no bound and nothing proves it ends. The model runs over a finite attempt sequence, and `StillRetrying` reports an invocation that has not ended yet.
- `Math.random()` and floating-point rounding: a draw is an exact real in [0, 1), so the product `u * 151` is not rounded as a double would be.
- React's hooks, scheduling and batching: the cells are plain fields, and each invocation applies its updates in program order. Renders that happen between `await` points inside one invocation (always the loading heading) are covered by `RetryingShowsLoading`, not by a trace.
- Concurrent invocations (a second fetch started while one is in flight, for example by a doubled mount effect) interleave their writes. That last-write-wins race is not modelled.
- Ui.Render: tests whether an error is set (`error.Some?`) where the source tests the JavaScript truthiness of `error` (src/App.js:112). The two differ only for an empty-string error, which src/App.js:71 never stores.
- `console.error` logging of the status text has no effect on state. The status text is kept in `Failed` only.
- JSX markup, class names, the static headings and the `key` attribute: the render is modelled as the selected `View` and its sprite items.
- Fields the component reads but does not check are assumed well-formed. `speciesData.generation` (src/App.js:44) and `speciesData.evolution_chain` (src/App.js:48) would throw inside the `try`, into the same `catch`. A node's `evolves_to` not being an array would throw there too, during extraction (src/App.js:86). A chain entry without `url` would make `pokemon.url.split` throw during render (src/App.js:129), outside the `try`, which the model does not capture.
