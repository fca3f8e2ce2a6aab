/**
 * The catalog records: a media item (`TvMediaMetadata`) with its state-insensitive identity,
 * a collection and a background image.
 *
 * URIs are opaque strings, nullable Kotlin values are `Option`s, and Kotlin `Int`/`Long`
 * fields are `int`s (they are only copied here, never computed on).
 */
module MediaModels {
  import opened Wrappers
  import TvContract

  /** One playable piece of content. The four state fields are `playbackDurationMillis`,
      `playbackPositionMillis`, `hidden` and `watchNext`; only three of them take part in
      `IsStateless`. */
  datatype TvMediaMetadata = TvMediaMetadata(
    id: string,
    collectionId: string,
    title: string,
    contentUri: string,
    author: Option<string>,
    year: Option<int>,
    playbackDurationMillis: Option<int>,
    playbackPositionMillis: Option<int>,
    ratings: Option<seq<string>>,
    genres: Option<seq<string>>,
    description: Option<string>,
    trackNumber: Option<int>,
    artUri: Option<string>,
    artAspectRatio: int,
    hidden: bool,
    watchNext: bool,
    programType: int)

  /** A named group of items (`TvMediaCollection`). */
  datatype TvMediaCollection = TvMediaCollection(
    id: string, title: string, description: string, artUri: Option<string>)

  /** An ambient background image (`TvMediaBackground`). */
  datatype TvMediaBackground = TvMediaBackground(id: string, uri: string)

  /** The primary constructor with every defaulted parameter left at its default. */
  function NewMetadata(id: string, collectionId: string, title: string, contentUri: string): (m: TvMediaMetadata)
    ensures m.id == id && m.collectionId == collectionId && m.title == title && m.contentUri == contentUri
    ensures m.artAspectRatio == TvContract.ASPECT_RATIO_MOVIE_POSTER && m.programType == TvContract.TYPE_MOVIE
    ensures m.playbackPositionMillis.None?
    ensures IsStateless(m)
  {
    TvMediaMetadata(id, collectionId, title, contentUri, None, None, None, None, None, None, None, None,
      None, TvContract.ASPECT_RATIO_MOVIE_POSTER, false, false, TvContract.TYPE_MOVIE)
  }

  /** `isStateless`: none of the three state fields differs from its default. */
  predicate IsStateless(m: TvMediaMetadata): (r: bool)
    ensures r <==> m.(playbackDurationMillis := None, hidden := false, watchNext := false) == m
  {
    m.playbackDurationMillis.None? && !m.hidden && !m.watchNext
  }

  /** The fields that `equals` keeps: everything except `playbackDurationMillis`, `hidden`
      and `watchNext`. Note that `playbackPositionMillis` is kept. */
  predicate SameDescriptive(a: TvMediaMetadata, b: TvMediaMetadata) {
    a.id == b.id && a.collectionId == b.collectionId && a.title == b.title &&
    a.contentUri == b.contentUri && a.author == b.author && a.year == b.year &&
    a.playbackPositionMillis == b.playbackPositionMillis && a.ratings == b.ratings &&
    a.genres == b.genres && a.description == b.description && a.trackNumber == b.trackNumber &&
    a.artUri == b.artUri && a.artAspectRatio == b.artAspectRatio && a.programType == b.programType
  }

  /** `copy(playbackDurationMillis = null, hidden = false, watchNext = false)`. */
  function Strip(m: TvMediaMetadata): (r: TvMediaMetadata)
    ensures IsStateless(r)
    ensures SameDescriptive(m, r)
  {
    m.(playbackDurationMillis := None, hidden := false, watchNext := false)
  }

  lemma StripIdempotent(m: TvMediaMetadata)
    ensures Strip(Strip(m)) == Strip(m)
  {
  }

  /** Stripping changes nothing exactly on stateless records. */
  lemma StripFixesExactlyStateless(m: TvMediaMetadata)
    ensures Strip(m) == m <==> IsStateless(m)
  {
    if IsStateless(m) {
      assert m.playbackDurationMillis == None;
    }
  }

  /** Two records have the same projection exactly when they agree on every descriptive field. */
  lemma StripEqualIffSameDescriptive(a: TvMediaMetadata, b: TvMediaMetadata)
    ensures Strip(a) == Strip(b) <==> SameDescriptive(a, b)
  {
    if Strip(a) == Strip(b) {
      assert Strip(a).id == Strip(b).id;
    }
  }

  /**
   * `equals(other)`. `baseEq` is `super.equals`, the comparison the class inherits: with an
   * explicit `equals` in a Kotlin data class no structural `equals` is generated, so in the
   * app it is `Any`'s reference identity (see `IdentityEquals` below). A stateful receiver
   * delegates to its stripped copy, which is stateless and therefore uses `baseEq`.
   */
  function Equals(m: TvMediaMetadata, other: TvMediaMetadata, baseEq: (TvMediaMetadata, TvMediaMetadata) -> bool): (r: bool)
    ensures r == baseEq(Strip(m), other)
    decreases if IsStateless(m) then 0 else 1
  {
    if IsStateless(m) then baseEq(m, other) else Equals(Strip(m), other, baseEq)
  }

  /** `hashCode()`, with `super.hashCode` passed in as `baseHash`. */
  function Hash(m: TvMediaMetadata, baseHash: TvMediaMetadata -> int): (r: int)
    ensures r == baseHash(Strip(m))
    decreases if IsStateless(m) then 0 else 1
  {
    if IsStateless(m) then baseHash(m) else Hash(Strip(m), baseHash)
  }

  /** A stateless receiver uses the base comparison on itself, unchanged. */
  lemma EqualsIsBaseOnStrip(m: TvMediaMetadata, other: TvMediaMetadata, baseEq: (TvMediaMetadata, TvMediaMetadata) -> bool)
    ensures IsStateless(m) ==> Equals(m, other, baseEq) == baseEq(m, other)
  {
    StripFixesExactlyStateless(m);
  }

  /** Likewise a stateless receiver's `hashCode` is the base hash, unchanged. */
  lemma HashIsBaseOnStrip(m: TvMediaMetadata, baseHash: TvMediaMetadata -> int)
    ensures IsStateless(m) ==> Hash(m, baseHash) == baseHash(m)
  {
    StripFixesExactlyStateless(m);
  }

  /** The receiver's own state fields never influence `equals` or `hashCode`. */
  lemma ReceiverStateIgnored(a: TvMediaMetadata, b: TvMediaMetadata, other: TvMediaMetadata,
                             baseEq: (TvMediaMetadata, TvMediaMetadata) -> bool, baseHash: TvMediaMetadata -> int)
    requires SameDescriptive(a, b)
    ensures Equals(a, other, baseEq) == Equals(b, other, baseEq)
    ensures Hash(a, baseHash) == Hash(b, baseHash)
  {
    StripEqualIffSameDescriptive(a, b);
    EqualsIsBaseOnStrip(a, other, baseEq);
    EqualsIsBaseOnStrip(b, other, baseEq);
    HashIsBaseOnStrip(a, baseHash);
    HashIsBaseOnStrip(b, baseHash);
  }

  /** Structural equality, the base a reader of the doc comment would expect. */
  predicate Structural(x: TvMediaMetadata, y: TvMediaMetadata) {
    x == y
  }

  /** Under a structural base, a record equals only stateless records, and the two hash alike
      whatever the base hash. */
  lemma StructuralEqualsImpliesStatelessAndSameHash(a: TvMediaMetadata, b: TvMediaMetadata, baseHash: TvMediaMetadata -> int)
    requires Equals(a, b, Structural)
    ensures b == Strip(a) && IsStateless(b)
    ensures Hash(a, baseHash) == Hash(b, baseHash)
  {
    EqualsIsBaseOnStrip(a, b, Structural);
    HashIsBaseOnStrip(a, baseHash);
    HashIsBaseOnStrip(b, baseHash);
    StripIdempotent(a);
  }

  /** The relation is directional: a stateful record equals its stripped copy, but the copy
      does not equal it. */
  lemma StructuralEqualsNotSymmetric(a: TvMediaMetadata)
    requires !IsStateless(a)
    ensures Equals(a, Strip(a), Structural)
    ensures !Equals(Strip(a), a, Structural)
  {
    EqualsIsBaseOnStrip(a, Strip(a), Structural);
    EqualsIsBaseOnStrip(Strip(a), a, Structural);
    StripIdempotent(a);
  }

  /** Two different stateful records that differ only in state are unequal. */
  lemma StatefulVariantsUnequal(a: TvMediaMetadata, b: TvMediaMetadata)
    requires SameDescriptive(a, b) && a != b && !IsStateless(b)
    ensures !Equals(a, b, Structural)
  {
    EqualsIsBaseOnStrip(a, b, Structural);
  }

  // ---------------------------------------------------------------------------------------
  // `super.equals` as the app actually has it: reference identity of `Any`.

  /** An object on the heap: its address and the record it holds. */
  datatype Obj = Obj(addr: nat, value: TvMediaMetadata)

  /**
   * `equals` as written, with `super.equals` being reference identity. The stripped copy of a
   * stateful receiver is a newly allocated object at `freshAddr`, so no existing object,
   * `other` included, lives there.
   */
  function IdentityEquals(m: Obj, other: Obj, freshAddr: nat): (r: bool)
    requires freshAddr != other.addr
    ensures r <==> IsStateless(m.value) && m.addr == other.addr
  {
    if IsStateless(m.value) then m.addr == other.addr
    else Obj(freshAddr, Strip(m.value)).addr == other.addr
  }

  /** As written, a record that carries state is not equal even to itself. */
  lemma IdentityEqualsNotReflexive(m: Obj, freshAddr: nat)
    requires !IsStateless(m.value) && freshAddr != m.addr
    ensures !IdentityEquals(m, m, freshAddr)
  {
  }

  /** As written, the comparison is symmetric: both sides must be the very same stateless
      object, so what fails is reflexivity, not symmetry. */
  lemma IdentityEqualsSymmetric(a: Obj, b: Obj, freshA: nat, freshB: nat)
    requires freshA != b.addr && freshB != a.addr
    requires a.addr == b.addr ==> a == b
    ensures IdentityEquals(a, b, freshA) ==> IdentityEquals(b, a, freshB)
  {
  }

  /** Counterexample: the first record the feed parser would produce for a ten-second item. */
  lemma IdentityEqualsCounterexample()
    ensures !IdentityEquals(Obj(1, NewMetadata("i1", "c1", "I", "http://x/a.mp4").(playbackDurationMillis := Some(10000))),
                            Obj(1, NewMetadata("i1", "c1", "I", "http://x/a.mp4").(playbackDurationMillis := Some(10000))), 2)
  {
  }

  // ---------------------------------------------------------------------------------------
  // The comparison the doc comment "Compares only fields not related to the state" describes.

  /** Catalog identity: equal descriptive fields, whatever the state. */
  predicate CatalogEquals(a: TvMediaMetadata, b: TvMediaMetadata) {
    Strip(a) == Strip(b)
  }

  /** The hash that goes with `CatalogEquals`. */
  function CatalogHash(m: TvMediaMetadata, baseHash: TvMediaMetadata -> int): (r: int)
    ensures forall n :: SameDescriptive(m, n) ==> r == baseHash(Strip(n))
  {
    forall n | SameDescriptive(m, n) ensures baseHash(Strip(m)) == baseHash(Strip(n)) {
      StripEqualIffSameDescriptive(m, n);
    }
    baseHash(Strip(m))
  }

  /** `CatalogEquals` compares exactly the descriptive fields, and is an equivalence. */
  lemma CatalogEqualsIsDescriptiveEquivalence(a: TvMediaMetadata, b: TvMediaMetadata, c: TvMediaMetadata)
    ensures CatalogEquals(a, b) <==> SameDescriptive(a, b)
    ensures CatalogEquals(a, a)
    ensures CatalogEquals(a, b) ==> CatalogEquals(b, a)
    ensures CatalogEquals(a, b) && CatalogEquals(b, c) ==> CatalogEquals(a, c)
  {
    StripEqualIffSameDescriptive(a, b);
  }

  /** Equal records hash alike, and records with different titles are never equal. */
  lemma CatalogEqualsConsistent(a: TvMediaMetadata, b: TvMediaMetadata, baseHash: TvMediaMetadata -> int)
    ensures CatalogEquals(a, b) ==> CatalogHash(a, baseHash) == CatalogHash(b, baseHash)
    ensures a.title != b.title ==> !CatalogEquals(a, b)
  {
    StripEqualIffSameDescriptive(a, b);
  }

  /** Against a stripped argument, the source's `equals` over a structural base agrees with
      `CatalogEquals`. */
  lemma CatalogEqualsMatchesStructuralEquals(a: TvMediaMetadata, b: TvMediaMetadata)
    ensures Equals(a, Strip(b), Structural) <==> CatalogEquals(a, b)
  {
    EqualsIsBaseOnStrip(a, Strip(b), Structural);
  }
}
