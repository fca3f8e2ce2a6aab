/**
 * `TvMediaSynchronizer.parseMediaFeed`: turns the media-feed document into the flat list of
 * item records, the list of collections and the list of backgrounds.
 *
 * The document arrives already parsed into a `Json` tree; reading the asset and parsing its
 * text are not part of this model. Any accessor failure is an exception that aborts the
 * whole parse, so the result is a `Result` whose failure carries no partial output.
 */
module FeedParser {
  import opened Wrappers
  import opened Json
  import opened MediaModels
  import opened Decimal
  import TvContract

  /** `FeedParseResult`. */
  datatype FeedParseResult = FeedParseResult(
    metadata: seq<TvMediaMetadata>,
    collections: seq<TvMediaCollection>,
    backgrounds: seq<TvMediaBackground>)

  /** One `feed` element: its collection record and the records of its `items`. */
  datatype ParsedCollection = ParsedCollection(collection: TvMediaCollection, items: seq<TvMediaMetadata>)

  /** The fields of a `feed` element read before its items, and its raw `items` array. */
  datatype CollectionHeader = CollectionHeader(collection: TvMediaCollection, items: seq<Json>)

  // ---------------------------------------------------------------------------------------
  // Sequence helpers

  /**
   * `mapObject` / `mapString`: maps every element in order; the first element whose
   * transformation throws aborts the map with that exception.
   */
  function MapAll<A, B, E>(s: seq<A>, f: A -> Result<B, E>): (r: Result<seq<B>, E>)
    ensures r.Success? <==> forall i :: 0 <= i < |s| ==> f(s[i]).Success?
    ensures r.Success? ==> |r.value| == |s| && forall i :: 0 <= i < |s| ==> f(s[i]) == Success(r.value[i])
    ensures r.Failure? ==> exists i :: 0 <= i < |s| && f(s[i]) == Failure(r.error) &&
                                      forall k :: 0 <= k < i ==> f(s[k]).Success?
  {
    if |s| == 0 then Success([])
    else
      var init :- MapAll(s[..|s| - 1], f);
      var last :- f(s[|s| - 1]);
      Success(init + [last])
  }

  /** Extending a successful prefix by one more element. */
  lemma MapAllStep<A, B, E>(s: seq<A>, k: nat, f: A -> Result<B, E>, acc: seq<B>)
    requires k < |s| && MapAll(s[..k], f) == Success(acc)
    ensures f(s[k]).Success? ==> MapAll(s[..k + 1], f) == Success(acc + [f(s[k]).value])
    ensures f(s[k]).Failure? ==> MapAll(s, f) == Failure(f(s[k]).error)
  {
    assert s[..k + 1][..k] == s[..k];
    if f(s[k]).Failure? {
      var r := MapAll(s, f);
      assert f(s[k]).Failure? && forall i :: 0 <= i < k ==> f(s[i]).Success? by {
        forall i | 0 <= i < k ensures f(s[i]).Success? {
          assert s[..k][i] == s[i];
        }
      }
      var i :| 0 <= i < |s| && f(s[i]) == Failure(r.error) && forall j :: 0 <= j < i ==> f(s[j]).Success?;
      assert i == k;
    }
  }

  lemma MapAllSingleton<A, B, E>(x: A, f: A -> Result<B, E>)
    requires f(x).Success?
    ensures MapAll([x], f) == Success([f(x).value])
  {
    assert [x][..0] == [] && [x][..1] == [x];
    MapAllStep([x], 0, f, []);
    assert [] + [f(x).value] == [f(x).value];
  }

  /** The elements of an array paired with their indices, as `(0 until length()).map { … }` visits them. */
  function Enumerate<T>(s: seq<T>): (r: seq<(nat, T)>)
    ensures |r| == |s| && forall i :: 0 <= i < |s| ==> r[i] == (i, s[i])
  {
    seq(|s|, i requires 0 <= i < |s| => (i, s[i]))
  }

  /** Concatenation of a sequence of lists, in order. */
  function Flatten<T>(ss: seq<seq<T>>): seq<T> {
    if |ss| == 0 then [] else Flatten(ss[..|ss| - 1]) + ss[|ss| - 1]
  }

  function SumLengths<T>(ss: seq<seq<T>>): nat {
    if |ss| == 0 then 0 else SumLengths(ss[..|ss| - 1]) + |ss[|ss| - 1]|
  }

  lemma {:induction false} FlattenLength<T>(ss: seq<seq<T>>)
    ensures |Flatten(ss)| == SumLengths(ss)
  {
    if |ss| > 0 {
      FlattenLength(ss[..|ss| - 1]);
    }
  }

  /** Every element of the concatenation comes from one of the lists, and vice versa. */
  lemma {:induction false} FlattenMembership<T>(ss: seq<seq<T>>, x: T)
    ensures x in Flatten(ss) <==> exists i :: 0 <= i < |ss| && x in ss[i]
  {
    if |ss| > 0 {
      var init := ss[..|ss| - 1];
      FlattenMembership(init, x);
      if x in Flatten(ss) && x !in ss[|ss| - 1] {
        var i :| 0 <= i < |init| && x in init[i];
        assert ss[i] == init[i];
      }
      if exists i :: 0 <= i < |ss| && x in ss[i] {
        var i :| 0 <= i < |ss| && x in ss[i];
        if i < |init| {
          assert init[i] == ss[i];
        }
      }
    }
  }

  function Collections(ps: seq<ParsedCollection>): (r: seq<TvMediaCollection>)
    ensures |r| == |ps| && forall i :: 0 <= i < |ps| ==> r[i] == ps[i].collection
  {
    seq(|ps|, i requires 0 <= i < |ps| => ps[i].collection)
  }

  function ItemLists(ps: seq<ParsedCollection>): (r: seq<seq<TvMediaMetadata>>)
    ensures |r| == |ps| && forall i :: 0 <= i < |ps| ==> r[i] == ps[i].items
  {
    seq(|ps|, i requires 0 <= i < |ps| => ps[i].items)
  }

  lemma AppendParsed(ps: seq<ParsedCollection>, p: ParsedCollection)
    ensures Collections(ps + [p]) == Collections(ps) + [p.collection]
    ensures Flatten(ItemLists(ps + [p])) == Flatten(ItemLists(ps)) + p.items
  {
    assert ItemLists(ps + [p])[..|ps|] == ItemLists(ps);
  }

  // ---------------------------------------------------------------------------------------
  // The specification of the parse

  /** `optJSONArray("ratings")?.mapString { x -> x }`. */
  function ParseRatings(o: map<string, Json>): (r: Result<Option<seq<string>>, JsonError>)
  {
    match OptArray(o, "ratings")
    case None => Success(None)
    case Some(a) =>
      var l :- MapAll(a, AsString);
      Success(Some(l))
  }

  /** The `TvMediaMetadata(…)` built for one `items` element of collection `collectionId`;
      the arguments are read in the order the constructor call lists them. */
  function ParseItem(collectionId: string, j: Json): (r: Result<TvMediaMetadata, JsonError>)
    ensures r.Success? ==> r.value.collectionId == collectionId && r.value.playbackPositionMillis.None?
    ensures r.Success? ==> !IsStateless(r.value)
  {
    var o :- AsObject(j);
    var id :- GetString(o, "id");
    var title :- GetString(o, "title");
    var ratings :- ParseRatings(o);
    var url :- GetString(o, "url");
    var duration :- GetLong(o, "duration");
    var year :- GetInt(o, "year");
    var director :- GetString(o, "director");
    var description :- GetString(o, "description");
    var art :- GetString(o, "art");
    Success(TvMediaMetadata(
      id := id, collectionId := collectionId, title := title, contentUri := url,
      author := Some(director), year := Some(year),
      playbackDurationMillis := Some(LongMul(duration, 1000)), playbackPositionMillis := None,
      ratings := ratings, genres := None, description := Some(description), trackNumber := None,
      artUri := Some(art), artAspectRatio := TvContract.ASPECT_RATIO_MOVIE_POSTER,
      hidden := false, watchNext := false, programType := TvContract.TYPE_MOVIE))
  }

  /** The item transformation handed to `mapObject` for collection `collectionId`. */
  function ItemParser(collectionId: string): Json -> Result<TvMediaMetadata, JsonError> {
    j => ParseItem(collectionId, j)
  }

  /** The collection fields of one `feed` element, then its `items` array. */
  function ParseCollectionHeader(j: Json): (r: Result<CollectionHeader, JsonError>)
  {
    var o :- AsObject(j);
    var id :- GetString(o, "id");
    var title :- GetString(o, "title");
    var description :- GetString(o, "description");
    var image :- GetString(o, "image");
    var items :- GetArray(o, "items");
    Success(CollectionHeader(TvMediaCollection(id, title, description, Some(image)), items))
  }

  /** One `feed` element: its collection and the records of its items. */
  function ParseCollection(j: Json): (r: Result<ParsedCollection, JsonError>)
    ensures r.Success? ==> forall m :: m in r.value.items ==> m.collectionId == r.value.collection.id
  {
    var h :- ParseCollectionHeader(j);
    var items :- MapAll(h.items, ItemParser(h.collection.id));
    Success(ParsedCollection(h.collection, items))
  }

  /** `TvMediaBackground("$idx", Uri.parse(bgArray.getString(idx)))`. */
  function ParseBackground(entry: (nat, Json)): (r: Result<TvMediaBackground, JsonError>)
  {
    var uri :- AsString(entry.1);
    Success(TvMediaBackground(NatToString(entry.0), uri))
  }

  /** The whole parse: the feed first, then the backgrounds. */
  function ParseMediaFeedSpec(doc: Json): (r: Result<FeedParseResult, JsonError>)
    ensures r.Success? ==> doc.JObj? && "feed" in doc.o && doc.o["feed"].JArr?
    ensures r.Success? ==> "backgrounds" in doc.o && doc.o["backgrounds"].JArr?
    ensures r.Success? ==> |r.value.collections| == |doc.o["feed"].a| && |r.value.backgrounds| == |doc.o["backgrounds"].a|
  {
    var data :- AsObject(doc);
    var feed :- GetArray(data, "feed");
    var parsed :- MapAll(feed, ParseCollection);
    var bgArray :- GetArray(data, "backgrounds");
    var backgrounds :- MapAll(Enumerate(bgArray), ParseBackground);
    Success(FeedParseResult(Flatten(ItemLists(parsed)), Collections(parsed), backgrounds))
  }

  // ---------------------------------------------------------------------------------------
  // The parse as the source performs it

  /** `obj.getJSONArray("items").mapObject { … }` for one collection. */
  method ParseItems(collectionId: string, items: seq<Json>) returns (r: Result<seq<TvMediaMetadata>, JsonError>)
    ensures r == MapAll(items, ItemParser(collectionId))
  {
    var acc: seq<TvMediaMetadata> := [];
    var k := 0;
    while k < |items|
      invariant 0 <= k <= |items|
      invariant MapAll(items[..k], ItemParser(collectionId)) == Success(acc)
    {
      var item := ParseItem(collectionId, items[k]);
      MapAllStep(items, k, ItemParser(collectionId), acc);
      if item.Failure? {
        return Failure(item.error);
      }
      acc := acc + [item.value];
      k := k + 1;
    }
    assert items[..k] == items;
    return Success(acc);
  }

  /**
   * `parseMediaFeed`: maps the collections in order, appending each collection's items to
   * one flat list as it goes, then maps the backgrounds.
   */
  method ParseMediaFeed(doc: Json) returns (r: Result<FeedParseResult, JsonError>)
    ensures r == ParseMediaFeedSpec(doc)
  {
    if !doc.JObj? {
      return Failure(NotAnObject);
    }
    var data := doc.o;
    var feedArray := GetArray(data, "feed");
    if feedArray.Failure? {
      return Failure(feedArray.error);
    }
    var feed := feedArray.value;

    var metadatas: seq<TvMediaMetadata> := [];
    var collections: seq<TvMediaCollection> := [];
    ghost var parsed: seq<ParsedCollection> := [];
    var i := 0;
    while i < |feed|
      invariant 0 <= i <= |feed|
      invariant MapAll(feed[..i], ParseCollection) == Success(parsed)
      invariant collections == Collections(parsed)
      invariant metadatas == Flatten(ItemLists(parsed))
    {
      MapAllStep(feed, i, ParseCollection, parsed);
      var header := ParseCollectionHeader(feed[i]);
      if header.Failure? {
        return Failure(header.error);
      }
      var collection := header.value.collection;
      var subItems := ParseItems(collection.id, header.value.items);
      if subItems.Failure? {
        return Failure(subItems.error);
      }
      AppendParsed(parsed, ParsedCollection(collection, subItems.value));
      metadatas := metadatas + subItems.value;
      collections := collections + [collection];
      parsed := parsed + [ParsedCollection(collection, subItems.value)];
      i := i + 1;
    }
    assert feed[..i] == feed;

    var bgArray := GetArray(data, "backgrounds");
    if bgArray.Failure? {
      return Failure(bgArray.error);
    }
    var entries := Enumerate(bgArray.value);
    var backgrounds: seq<TvMediaBackground> := [];
    var idx := 0;
    while idx < |entries|
      invariant 0 <= idx <= |entries|
      invariant MapAll(entries[..idx], ParseBackground) == Success(backgrounds)
    {
      MapAllStep(entries, idx, ParseBackground, backgrounds);
      var background := ParseBackground(entries[idx]);
      if background.Failure? {
        return Failure(background.error);
      }
      backgrounds := backgrounds + [background.value];
      idx := idx + 1;
    }
    assert entries[..idx] == entries;
    return Success(FeedParseResult(metadatas, collections, backgrounds));
  }

  // ---------------------------------------------------------------------------------------
  // The document schema the parse accepts, stated independently of the parse

  predicate HasString(o: map<string, Json>, key: string) {
    key in o && o[key].JStr?
  }

  predicate HasLong(o: map<string, Json>, key: string) {
    key in o && o[key].JInt? && InLongRange(o[key].i)
  }

  /** `ratings` may be absent or of another type, but an array must hold only strings. */
  predicate RatingsWellFormed(o: map<string, Json>) {
    "ratings" in o && o["ratings"].JArr? ==> forall e :: e in o["ratings"].a ==> e.JStr?
  }

  predicate WellFormedItem(j: Json) {
    j.JObj? && HasString(j.o, "id") && HasString(j.o, "title") && RatingsWellFormed(j.o) &&
    HasString(j.o, "url") && HasLong(j.o, "duration") && HasLong(j.o, "year") &&
    HasString(j.o, "director") && HasString(j.o, "description") && HasString(j.o, "art")
  }

  predicate WellFormedCollection(j: Json) {
    j.JObj? && HasString(j.o, "id") && HasString(j.o, "title") && HasString(j.o, "description") &&
    HasString(j.o, "image") && "items" in j.o && j.o["items"].JArr? &&
    forall e :: e in j.o["items"].a ==> WellFormedItem(e)
  }

  predicate WellFormedFeed(doc: Json) {
    doc.JObj? &&
    "feed" in doc.o && doc.o["feed"].JArr? &&
    (forall c :: c in doc.o["feed"].a ==> WellFormedCollection(c)) &&
    "backgrounds" in doc.o && doc.o["backgrounds"].JArr? &&
    (forall b :: b in doc.o["backgrounds"].a ==> b.JStr?)
  }

  // ---------------------------------------------------------------------------------------
  // Properties of one item

  /** How each field of an item record is obtained from its JSON object. */
  lemma ParseItemFields(collectionId: string, j: Json, m: TvMediaMetadata)
    requires ParseItem(collectionId, j) == Success(m)
    ensures WellFormedItem(j)
    ensures m.collectionId == collectionId
    ensures m.id == j.o["id"].s && m.title == j.o["title"].s && m.contentUri == j.o["url"].s
    ensures m.author == Some(j.o["director"].s) && m.description == Some(j.o["description"].s)
    ensures m.artUri == Some(j.o["art"].s)
    ensures m.year == Some(LongToInt(j.o["year"].i))
    ensures MIN_INT <= j.o["year"].i <= MAX_INT ==> m.year == Some(j.o["year"].i)
    ensures m.playbackDurationMillis == Some(LongMul(j.o["duration"].i, 1000))
    ensures InLongRange(j.o["duration"].i * 1000) ==> m.playbackDurationMillis == Some(j.o["duration"].i * 1000)
    ensures m.playbackPositionMillis.None? && !m.hidden && !m.watchNext && !IsStateless(m)
    ensures m.genres.None? && m.trackNumber.None?
    ensures m.artAspectRatio == TvContract.ASPECT_RATIO_MOVIE_POSTER && m.programType == TvContract.TYPE_MOVIE
  {
    ParseItemSucceedsIff(collectionId, j);
  }

  /** `ratings` is null when the key is absent or not an array, otherwise its strings in order. */
  lemma ParseItemRatings(collectionId: string, j: Json, m: TvMediaMetadata)
    requires ParseItem(collectionId, j) == Success(m)
    ensures j.JObj?
    ensures m.ratings.None? <==> !("ratings" in j.o && j.o["ratings"].JArr?)
    ensures m.ratings.Some? ==>
      |m.ratings.value| == |j.o["ratings"].a| &&
      forall k :: 0 <= k < |m.ratings.value| ==> j.o["ratings"].a[k] == JStr(m.ratings.value[k])
  {
    var o := j.o;
    assert ParseRatings(o).Success?;
    if "ratings" in o && o["ratings"].JArr? {
      var a := o["ratings"].a;
      var l := MapAll(a, AsString).value;
      assert m.ratings == Some(l);
      forall k | 0 <= k < |l| ensures a[k] == JStr(l[k]) {
        assert AsString(a[k]) == Success(l[k]);
      }
    }
  }

  /** An item parses exactly when its object has every required key with the right type. */
  lemma ParseItemSucceedsIff(collectionId: string, j: Json)
    ensures ParseItem(collectionId, j).Success? <==> WellFormedItem(j)
  {
    if j.JObj? {
      var o := j.o;
      if "ratings" in o && o["ratings"].JArr? {
        var a := o["ratings"].a;
        assert MapAll(a, AsString).Success? <==> forall e :: e in a ==> e.JStr? by {
          if forall e :: e in a ==> e.JStr? {
            forall k | 0 <= k < |a| ensures AsString(a[k]).Success? {
              assert a[k] in a;
            }
          }
        }
      }
    }
  }

  // ---------------------------------------------------------------------------------------
  // Properties of one collection

  /** A collection record copies `id`, `title` and `description`, takes `image` as its art, and
      its items are its `items` elements mapped in order, each linked to the collection's id. */
  lemma ParseCollectionFields(j: Json, p: ParsedCollection)
    requires ParseCollection(j) == Success(p)
    ensures WellFormedCollection(j)
    ensures p.collection == TvMediaCollection(j.o["id"].s, j.o["title"].s, j.o["description"].s, Some(j.o["image"].s))
    ensures |p.items| == |j.o["items"].a|
    ensures forall k :: 0 <= k < |p.items| ==>
      ParseItem(p.collection.id, j.o["items"].a[k]) == Success(p.items[k]) &&
      p.items[k].collectionId == p.collection.id
  {
    ParseCollectionSucceedsIff(j);
    var items := j.o["items"].a;
    forall k | 0 <= k < |p.items|
      ensures ParseItem(p.collection.id, items[k]) == Success(p.items[k]) && p.items[k].collectionId == p.collection.id
    {
      assert ItemParser(p.collection.id)(items[k]) == Success(p.items[k]);
      ParseItemFields(p.collection.id, items[k], p.items[k]);
    }
  }

  lemma ParseCollectionSucceedsIff(j: Json)
    ensures ParseCollection(j).Success? <==> WellFormedCollection(j)
  {
    if ParseCollectionHeader(j).Success? {
      var h := ParseCollectionHeader(j).value;
      var f := ItemParser(h.collection.id);
      assert h.items == j.o["items"].a;
      forall k | 0 <= k < |h.items| ensures f(h.items[k]).Success? <==> WellFormedItem(h.items[k]) {
        ParseItemSucceedsIff(h.collection.id, h.items[k]);
      }
      if forall e :: e in h.items ==> WellFormedItem(e) {
        forall k | 0 <= k < |h.items| ensures f(h.items[k]).Success? {
          assert h.items[k] in h.items;
        }
      }
    }
  }

  // ---------------------------------------------------------------------------------------
  // Properties of the whole parse

  /** All or nothing: the parse succeeds exactly on documents that follow the schema, and
      otherwise yields no result at all. */
  lemma ParseMediaFeedSucceedsIff(doc: Json)
    ensures ParseMediaFeedSpec(doc).Success? <==> WellFormedFeed(doc)
  {
    if doc.JObj? && "feed" in doc.o && doc.o["feed"].JArr? {
      var feed := doc.o["feed"].a;
      forall i | 0 <= i < |feed| ensures ParseCollection(feed[i]).Success? <==> WellFormedCollection(feed[i]) {
        ParseCollectionSucceedsIff(feed[i]);
      }
      if forall c :: c in feed ==> WellFormedCollection(c) {
        forall i | 0 <= i < |feed| ensures ParseCollection(feed[i]).Success? {
          assert feed[i] in feed;
        }
      }
      if "backgrounds" in doc.o && doc.o["backgrounds"].JArr? {
        var bg := doc.o["backgrounds"].a;
        var entries := Enumerate(bg);
        assert MapAll(entries, ParseBackground).Success? <==> forall b :: b in bg ==> b.JStr? by {
          forall i | 0 <= i < |bg| ensures ParseBackground(entries[i]).Success? <==> bg[i].JStr? {
            assert entries[i] == (i, bg[i]);
          }
          if forall b :: b in bg ==> b.JStr? {
            forall i | 0 <= i < |bg| ensures ParseBackground(entries[i]).Success? {
              assert bg[i] in bg;
            }
          }
        }
      }
    }
  }

  /** The records of the `i`-th `feed` element's items, or none if it does not parse. */
  function ItemsOf(j: Json): seq<TvMediaMetadata> {
    match ParseCollection(j)
    case Success(p) => p.items
    case Failure(_) => []
  }

  /** The raw `items` array of a `feed` element, or an empty one. */
  function ItemArray(j: Json): seq<Json> {
    if j.JObj? && "items" in j.o && j.o["items"].JArr? then j.o["items"].a else []
  }

  lemma {:induction false} SumLengthsPointwise<T, U>(xs: seq<seq<T>>, ys: seq<seq<U>>)
    requires |xs| == |ys| && forall i :: 0 <= i < |xs| ==> |xs[i]| == |ys[i]|
    ensures SumLengths(xs) == SumLengths(ys)
  {
    if |xs| > 0 {
      SumLengthsPointwise(xs[..|xs| - 1], ys[..|ys| - 1]);
    }
  }

  /**
   * One collection per `feed` element, in document order, with `id`, `title` and
   * `description` copied verbatim; `metadata` is the in-order concatenation of every
   * collection's item records, so its length is the total number of `items` elements.
   */
  lemma ParseMediaFeedCollections(doc: Json, r: FeedParseResult)
    requires ParseMediaFeedSpec(doc) == Success(r)
    ensures WellFormedFeed(doc)
    ensures |r.collections| == |doc.o["feed"].a|
    ensures forall i :: 0 <= i < |r.collections| ==>
      var c := doc.o["feed"].a[i];
      c.JObj? && r.collections[i] == TvMediaCollection(c.o["id"].s, c.o["title"].s, c.o["description"].s, Some(c.o["image"].s))
    ensures r.metadata == Flatten(seq(|doc.o["feed"].a|, i requires 0 <= i < |doc.o["feed"].a| => ItemsOf(doc.o["feed"].a[i])))
    ensures |r.metadata| == SumLengths(seq(|doc.o["feed"].a|, i requires 0 <= i < |doc.o["feed"].a| => ItemArray(doc.o["feed"].a[i])))
  {
    ParseMediaFeedSucceedsIff(doc);
    var feed := doc.o["feed"].a;
    var parsed := MapAll(feed, ParseCollection).value;
    var lists := seq(|feed|, i requires 0 <= i < |feed| => ItemsOf(feed[i]));
    var arrays := seq(|feed|, i requires 0 <= i < |feed| => ItemArray(feed[i]));
    forall i | 0 <= i < |feed|
      ensures ItemLists(parsed)[i] == lists[i] && |lists[i]| == |arrays[i]|
      ensures feed[i].JObj? && r.collections[i] == TvMediaCollection(feed[i].o["id"].s, feed[i].o["title"].s, feed[i].o["description"].s, Some(feed[i].o["image"].s))
    {
      ParseCollectionFields(feed[i], parsed[i]);
    }
    assert ItemLists(parsed) == lists;
    FlattenLength(lists);
    SumLengthsPointwise(lists, arrays);
  }

  /** What every record of a parsed collection carries: the collection's id and default state. */
  lemma ItemsOfCarry(j: Json, m: TvMediaMetadata)
    requires ParseCollection(j).Success? && m in ItemsOf(j)
    ensures m.collectionId == ParseCollection(j).value.collection.id
    ensures m.playbackDurationMillis.Some? && m.playbackPositionMillis.None? && !m.hidden && !m.watchNext
  {
    var p := ParseCollection(j).value;
    ParseCollectionFields(j, p);
    var k :| 0 <= k < |p.items| && p.items[k] == m;
    ParseItemFields(p.collection.id, j.o["items"].a[k], m);
  }

  /** The parse result in terms of the parse of each `feed` element. */
  lemma ParseMediaFeedParts(doc: Json, r: FeedParseResult)
    requires ParseMediaFeedSpec(doc) == Success(r)
    ensures doc.JObj? && "feed" in doc.o && doc.o["feed"].JArr?
    ensures |r.collections| == |doc.o["feed"].a|
    ensures forall i :: 0 <= i < |r.collections| ==>
      ParseCollection(doc.o["feed"].a[i]).Success? && r.collections[i] == ParseCollection(doc.o["feed"].a[i]).value.collection
    ensures r.metadata == Flatten(seq(|doc.o["feed"].a|, i requires 0 <= i < |doc.o["feed"].a| => ItemsOf(doc.o["feed"].a[i])))
  {
    var feed := doc.o["feed"].a;
    var parsed := MapAll(feed, ParseCollection).value;
    assert ItemLists(parsed) == seq(|feed|, i requires 0 <= i < |feed| => ItemsOf(feed[i]));
  }

  /** Every record's `collectionId` is the `id` of the collection whose `items` it came from. */
  lemma ParseMediaFeedLinkage(doc: Json, r: FeedParseResult)
    requires ParseMediaFeedSpec(doc) == Success(r)
    ensures doc.JObj? && "feed" in doc.o && doc.o["feed"].JArr?
    ensures forall m :: m in r.metadata ==>
      exists i :: 0 <= i < |r.collections| && m in ItemsOf(doc.o["feed"].a[i]) && m.collectionId == r.collections[i].id
  {
    ParseMediaFeedParts(doc, r);
    var feed := doc.o["feed"].a;
    var lists := seq(|feed|, i requires 0 <= i < |feed| => ItemsOf(feed[i]));
    forall m | m in r.metadata
      ensures exists i :: 0 <= i < |r.collections| && m in ItemsOf(feed[i]) && m.collectionId == r.collections[i].id
    {
      FlattenMembership(lists, m);
      var i :| 0 <= i < |lists| && m in lists[i];
      ItemsOfCarry(feed[i], m);
    }
  }

  /** Backgrounds come one per `backgrounds` entry, in order, the `i`-th with id `"i"`, so
      their ids are pairwise distinct. */
  lemma ParseMediaFeedBackgrounds(doc: Json, r: FeedParseResult)
    requires ParseMediaFeedSpec(doc) == Success(r)
    ensures doc.JObj? && "backgrounds" in doc.o && doc.o["backgrounds"].JArr?
    ensures |r.backgrounds| == |doc.o["backgrounds"].a|
    ensures forall i :: 0 <= i < |r.backgrounds| ==>
      r.backgrounds[i] == TvMediaBackground(NatToString(i), doc.o["backgrounds"].a[i].s) &&
      doc.o["backgrounds"].a[i] == JStr(r.backgrounds[i].uri)
    ensures forall i, k :: 0 <= i < k < |r.backgrounds| ==> r.backgrounds[i].id != r.backgrounds[k].id
  {
    var bg := doc.o["backgrounds"].a;
    var entries := Enumerate(bg);
    forall i | 0 <= i < |r.backgrounds|
      ensures r.backgrounds[i] == TvMediaBackground(NatToString(i), bg[i].s) && bg[i] == JStr(r.backgrounds[i].uri)
    {
      assert ParseBackground(entries[i]) == Success(r.backgrounds[i]);
    }
    forall i, k | 0 <= i < k < |r.backgrounds| ensures r.backgrounds[i].id != r.backgrounds[k].id {
      NatToStringInjective(i, k);
    }
  }

  /** Parsed records carry a duration and default state, so none of them is stateless. */
  lemma ParsedRecordsCarryState(doc: Json, r: FeedParseResult)
    requires ParseMediaFeedSpec(doc) == Success(r)
    ensures forall m :: m in r.metadata ==>
      m.playbackDurationMillis.Some? && m.playbackPositionMillis.None? && !m.hidden && !m.watchNext && !IsStateless(m)
  {
    ParseMediaFeedParts(doc, r);
    var feed := doc.o["feed"].a;
    var lists := seq(|feed|, i requires 0 <= i < |feed| => ItemsOf(feed[i]));
    forall m | m in r.metadata
      ensures m.playbackDurationMillis.Some? && m.playbackPositionMillis.None? && !m.hidden && !m.watchNext
    {
      FlattenMembership(lists, m);
      var i :| 0 <= i < |lists| && m in lists[i];
      ItemsOfCarry(feed[i], m);
    }
  }

  // A one-collection, one-item, one-background document.

  const EXAMPLE_ITEM: Json := JObj(map[
    "id" := JStr("i1"), "title" := JStr("I"), "url" := JStr("http://x/a.mp4"),
    "duration" := JInt(10), "year" := JInt(2020), "director" := JStr("A"),
    "description" := JStr("d"), "art" := JStr("http://x/i1.png")])

  const EXAMPLE_COLLECTION: Json := JObj(map[
    "id" := JStr("c1"), "title" := JStr("T"), "description" := JStr("D"),
    "image" := JStr("http://x/c1.png"), "items" := JArr([EXAMPLE_ITEM])])

  const EXAMPLE_DOC: Json := JObj(map[
    "feed" := JArr([EXAMPLE_COLLECTION]), "backgrounds" := JArr([JStr("http://x/bg.png")])])

  lemma ExampleItemParses()
    ensures ParseItem("c1", EXAMPLE_ITEM).Success?
    ensures var m := ParseItem("c1", EXAMPLE_ITEM).value;
      m.id == "i1" && m.collectionId == "c1" && m.playbackDurationMillis == Some(10000) && m.ratings.None?
  {
    ParseItemSucceedsIff("c1", EXAMPLE_ITEM);
    ParseItemFields("c1", EXAMPLE_ITEM, ParseItem("c1", EXAMPLE_ITEM).value);
    ParseItemRatings("c1", EXAMPLE_ITEM, ParseItem("c1", EXAMPLE_ITEM).value);
  }

  lemma ExampleCollectionParses()
    ensures ParseCollection(EXAMPLE_COLLECTION) ==
      Success(ParsedCollection(TvMediaCollection("c1", "T", "D", Some("http://x/c1.png")), [ParseItem("c1", EXAMPLE_ITEM).value]))
  {
    ExampleItemParses();
    var h := ParseCollectionHeader(EXAMPLE_COLLECTION);
    assert h == Success(CollectionHeader(TvMediaCollection("c1", "T", "D", Some("http://x/c1.png")), [EXAMPLE_ITEM]));
    assert ItemParser("c1")(EXAMPLE_ITEM) == ParseItem("c1", EXAMPLE_ITEM);
    MapAllSingleton(EXAMPLE_ITEM, ItemParser("c1"));
  }

  /** A document with a single `feed` element and a single background. */
  lemma ParseSingletonFeed(collection: Json, background: string)
    requires ParseCollection(collection).Success?
    ensures var p := ParseCollection(collection).value;
      ParseMediaFeedSpec(JObj(map["feed" := JArr([collection]), "backgrounds" := JArr([JStr(background)])]))
      == Success(FeedParseResult(p.items, [p.collection], [TvMediaBackground("0", background)]))
  {
    var p := ParseCollection(collection).value;
    MapAllSingleton(collection, ParseCollection);
    var entries := Enumerate([JStr(background)]);
    assert entries == [(0, JStr(background))];
    MapAllSingleton((0, JStr(background)), ParseBackground);
    assert ItemLists([p])[..0] == [];
    assert Flatten(ItemLists([p])) == p.items;
    assert Collections([p]) == [p.collection];
  }

  /** The example document parses to one collection, one record with its duration in
      milliseconds and no ratings, and one background with id `"0"`. */
  lemma ParseMediaFeedExample()
    ensures ParseMediaFeedSpec(EXAMPLE_DOC).Success?
    ensures var r := ParseMediaFeedSpec(EXAMPLE_DOC).value;
      r.collections == [TvMediaCollection("c1", "T", "D", Some("http://x/c1.png"))] &&
      |r.metadata| == 1 &&
      r.metadata[0].id == "i1" && r.metadata[0].collectionId == "c1" &&
      r.metadata[0].playbackDurationMillis == Some(10000) && r.metadata[0].ratings.None? &&
      r.backgrounds == [TvMediaBackground("0", "http://x/bg.png")]
  {
    ExampleItemParses();
    ExampleCollectionParses();
    ParseSingletonFeed(EXAMPLE_COLLECTION, "http://x/bg.png");
  }
}
