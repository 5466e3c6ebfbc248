/**
  The component's three state cells and what it renders from them: a
  loading heading, else an error heading, else nothing for an empty chain,
  else one sprite item per chain entry followed by the fetch button.
 */
module Ui {
  import opened Wrappers
  import opened Evolution
  import opened Sprites

  /** The state cells `isLoading`, `error` and `evolutionChain`. */
  datatype AppState = AppState(isLoading: bool, error: Option<string>, evolutionChain: seq<Species>)

  /** The initial values given to the three cells. */
  const INITIAL_STATE := AppState(false, None, [])

  const LOADING_TEXT := "Loading..."
  const ERROR_PREFIX := "Error: "

  /** One sprite item: the image's `src` and `alt`, and the caption. */
  datatype SpriteItem = SpriteItem(src: string, alt: string, caption: string)

  /**
    What the component renders. Only the gallery carries the fetch button;
    the other three views have no control at all.
   */
  datatype View =
    | LoadingHeading(text: string)
    | ErrorHeading(text: string)
    | Nothing
    | Gallery(items: seq<SpriteItem>)

  /** The item rendered for one chain entry. */
  function Item(s: Species): (item: SpriteItem)
    ensures item.alt == s.name && item.caption == s.name
    ensures item.src == SPRITE_BASE + (if Count(s.url, '/') >= ID_SEGMENT then SpriteId(s.url).value else UNDEFINED) + SPRITE_SUFFIX
  {
    SpriteItem(SpriteSrc(s.url), s.name, s.name)
  }

  /**
    The item of a catalog species reference `.../pokemon-species/<d>/` shows
    the sprite `<d>.png`, with the species name as its `alt` and caption.
   */
  lemma ItemOfSpeciesUrl(name: string, d: string)
    requires '/' !in d
    ensures Item(Species(name, Join(SPECIES_URL_SEGMENTS + [d, ""], '/'))) == SpriteItem(SPRITE_BASE + d + SPRITE_SUFFIX, name, name)
  {
    SpriteSrcOfSpeciesUrl(d);
  }

  /** The items for a chain, one per entry, in order. */
  function Items(chain: seq<Species>): (items: seq<SpriteItem>)
    ensures |items| == |chain|
    ensures forall i :: 0 <= i < |chain| ==> items[i] == Item(chain[i])
  {
    if chain == [] then [] else [Item(chain[0])] + Items(chain[1..])
  }

  /** The fetch button is offered in the gallery view only. */
  predicate OffersFetchButton(v: View)
  {
    v.Gallery?
  }

  /** The render's branch order: loading, then error, then empty chain, then the gallery. */
  function Render(s: AppState): (v: View)
    ensures v.LoadingHeading? <==> s.isLoading
    ensures v.ErrorHeading? <==> !s.isLoading && s.error.Some?
    ensures v.Nothing? <==> !s.isLoading && s.error.None? && s.evolutionChain == []
    ensures v.Gallery? <==> !s.isLoading && s.error.None? && s.evolutionChain != []
    ensures v.LoadingHeading? ==> v.text == LOADING_TEXT
    ensures v.ErrorHeading? ==> v.text == ERROR_PREFIX + s.error.value
    ensures v.Gallery? ==> v.items == Items(s.evolutionChain)
  {
    if s.isLoading then LoadingHeading(LOADING_TEXT)
    else if s.error.Some? then ErrorHeading(ERROR_PREFIX + s.error.value)
    else if |s.evolutionChain| == 0 then Nothing
    else Gallery(Items(s.evolutionChain))
  }

  /** A state from which the fetch button can be clicked has no error set. */
  lemma ButtonOnlyWithoutError(s: AppState)
    requires OffersFetchButton(Render(s))
    ensures s.error.None? && !s.isLoading && s.evolutionChain != []
  {
  }
}
