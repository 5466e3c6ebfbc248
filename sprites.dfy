/**
  The sprite image locator of a species: its reference URL is split on "/"
  and the segment at index 6 is substituted into the sprite repository
  template, with no check of what that segment holds.
 */
module Sprites {
  import opened Wrappers

  const SPRITE_BASE := "https://raw.githubusercontent.com/PokeAPI/sprites/master/sprites/pokemon/"
  const SPRITE_SUFFIX := ".png"
  /** The path segment that holds the numeric identifier. */
  const ID_SEGMENT := 6
  /** What a template literal prints for a missing array element. */
  const UNDEFINED := "undefined"
  /** The segments of `https://pokeapi.co/api/v2/pokemon-species/`, the prefix of a species reference. */
  const SPECIES_URL_SEGMENTS: seq<string> := ["https:", "", "pokeapi.co", "api", "v2", "pokemon-species"]

  /** `s.split(sep)` for a one-character separator: the pieces between separators. */
  function Split(s: string, sep: char): (parts: seq<string>)
    ensures |parts| >= 1
    decreases |s|
  {
    if s == [] then [[]]
    else
      var rest := Split(s[1..], sep);
      if s[0] == sep then [[]] + rest
      else [[s[0]] + rest[0]] + rest[1..]
  }

  /** `parts.join(sep)`: the pieces with a separator between each two. */
  function Join(parts: seq<string>, sep: char): string
    requires |parts| >= 1
  {
    if |parts| == 1 then parts[0] else parts[0] + [sep] + Join(parts[1..], sep)
  }

  /** The number of occurrences of `c` in `s`. */
  function Count(s: string, c: char): nat
  {
    if s == [] then 0 else (if s[0] == c then 1 else 0) + Count(s[1..], c)
  }

  /** Splitting yields one more piece than there are separators. */
  lemma {:induction false} SplitLength(s: string, sep: char)
    ensures |Split(s, sep)| == Count(s, sep) + 1
    decreases |s|
  {
    if s != [] {
      SplitLength(s[1..], sep);
    }
  }

  /** No piece holds the separator. */
  lemma {:induction false} SplitPiecesFree(s: string, sep: char)
    ensures forall i :: 0 <= i < |Split(s, sep)| ==> sep !in Split(s, sep)[i]
    decreases |s|
  {
    if s != [] {
      SplitPiecesFree(s[1..], sep);
      var rest := Split(s[1..], sep);
      if s[0] != sep {
        assert Split(s, sep) == [[s[0]] + rest[0]] + rest[1..];
        forall i | 0 <= i < |Split(s, sep)|
          ensures sep !in Split(s, sep)[i]
        {
          if i > 0 {
            assert Split(s, sep)[i] == rest[i];
          }
        }
      }
    }
  }

  /** Joining the pieces gives back the string. */
  lemma {:induction false} JoinSplit(s: string, sep: char)
    ensures Join(Split(s, sep), sep) == s
    decreases |s|
  {
    if s != [] {
      JoinSplit(s[1..], sep);
      var rest := Split(s[1..], sep);
      if s[0] == sep {
        assert s == [sep] + s[1..];
      } else if |rest| == 1 {
        assert s == [s[0]] + s[1..];
      } else {
        assert Split(s, sep)[1..] == rest[1..];
        assert s == [s[0]] + s[1..];
      }
    }
  }

  /** A separator-free word followed by a separator splits off as one piece. */
  lemma {:induction false} SplitAfterWord(w: string, t: string, sep: char)
    requires sep !in w
    ensures Split(w + [sep] + t, sep) == [w] + Split(t, sep)
    decreases |w|
  {
    if w == [] {
      assert [] + [sep] + t == [sep] + t;
      assert ([sep] + t)[1..] == t;
    } else {
      SplitAfterWord(w[1..], t, sep);
      assert (w + [sep] + t)[1..] == w[1..] + [sep] + t;
      assert [w[0]] + w[1..] == w;
    }
  }

  /** A separator-free word is a single piece. */
  lemma {:induction false} SplitWord(w: string, sep: char)
    requires sep !in w
    ensures Split(w, sep) == [w]
    decreases |w|
  {
    if w != [] {
      SplitWord(w[1..], sep);
      assert [w[0]] + w[1..] == w;
    }
  }

  /** Splitting undoes joining separator-free pieces. */
  lemma {:induction false} SplitJoin(parts: seq<string>, sep: char)
    requires |parts| >= 1
    requires forall i :: 0 <= i < |parts| ==> sep !in parts[i]
    ensures Split(Join(parts, sep), sep) == parts
  {
    if |parts| == 1 {
      SplitWord(parts[0], sep);
    } else {
      SplitJoin(parts[1..], sep);
      SplitAfterWord(parts[0], Join(parts[1..], sep), sep);
      assert parts == [parts[0]] + parts[1..];
    }
  }

  /**
    `url.split("/")[6]`: present exactly when the URL holds at least six
    slashes, and then never holding a slash itself.
   */
  function SpriteId(url: string): (id: Option<string>)
    ensures id.Some? <==> Count(url, '/') >= ID_SEGMENT
    ensures id.Some? ==> '/' !in id.value
  {
    SplitLength(url, '/');
    SplitPiecesFree(url, '/');
    var parts := Split(url, '/');
    if ID_SEGMENT < |parts| then Some(parts[ID_SEGMENT]) else None
  }

  /** For a URL built from slash-free segments, the sprite id is the seventh segment. */
  lemma SpriteIdOfSegments(parts: seq<string>)
    requires ID_SEGMENT < |parts|
    requires forall i :: 0 <= i < |parts| ==> '/' !in parts[i]
    ensures SpriteId(Join(parts, '/')) == Some(parts[ID_SEGMENT])
  {
    SplitJoin(parts, '/');
  }

  /**
    A catalog species reference `https://pokeapi.co/api/v2/pokemon-species/<d>/`
    yields `d`, whatever `d` holds: the segment is not checked to be numeric.
   */
  lemma SpriteIdOfSpeciesUrl(d: string)
    requires '/' !in d
    ensures SpriteId(Join(SPECIES_URL_SEGMENTS + [d, ""], '/')) == Some(d)
  {
    var parts := SPECIES_URL_SEGMENTS + [d, ""];
    assert parts == ["https:", "", "pokeapi.co", "api", "v2", "pokemon-species", d, ""];
    SpriteIdOfSegments(parts);
  }

  /**
    The `src` of a sprite image: the template filled with the id, or with
    `undefined` when the URL has fewer than six slashes.
   */
  function SpriteSrc(url: string): (src: string)
    ensures Count(url, '/') < ID_SEGMENT ==> src == SPRITE_BASE + UNDEFINED + SPRITE_SUFFIX
    ensures Count(url, '/') >= ID_SEGMENT ==> src == SPRITE_BASE + SpriteId(url).value + SPRITE_SUFFIX
  {
    var id := match SpriteId(url) case Some(v) => v case None => UNDEFINED;
    SPRITE_BASE + id + SPRITE_SUFFIX
  }

  /** The sprite of a catalog species reference `.../pokemon-species/<d>/` is `<d>.png`, unchecked. */
  lemma SpriteSrcOfSpeciesUrl(d: string)
    requires '/' !in d
    ensures SpriteSrc(Join(SPECIES_URL_SEGMENTS + [d, ""], '/')) == SPRITE_BASE + d + SPRITE_SUFFIX
  {
    SpriteIdOfSpeciesUrl(d);
  }
}
