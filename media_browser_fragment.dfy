/**
 * `MediaBrowswerFragment`: the rows built from a parsed feed, the diff predicates handed to
 * the adapter, and the one-time population of the main adapter.
 *
 * Row adapters are reduced to the list they show; Leanback's `HeaderItem` to its id (absent
 * when built from a name only) and name. The row presenters, images, palette tint and
 * animations are not modelled.
 */
module Browser {
  import opened Wrappers
  import opened MediaModels
  import Json
  import FeedParser

  datatype HeaderItem = HeaderItem(id: Option<int>, name: string)

  /** A row's adapter: an `ArrayObjectAdapter` over records, or the credits row's adapter,
      which has no items and answers `null` at every position. */
  datatype ObjectAdapter = ArrayAdapter(items: seq<TvMediaMetadata>) | CreditsAdapter

  datatype ListRow = ListRow(header: HeaderItem, adapter: ObjectAdapter)

  /** `adapter.size()`. */
  function Size(a: ObjectAdapter): nat {
    match a
    case ArrayAdapter(items) => |items|
    case CreditsAdapter => 0
  }

  /** `adapter.get(position)`, `null` being `None`. */
  function Get(a: ObjectAdapter, position: int): (r: Option<TvMediaMetadata>)
    requires a.CreditsAdapter? || 0 <= position < Size(a)
    ensures a.ArrayAdapter? ==> r == Some(a.items[position])
  {
    match a
    case ArrayAdapter(items) => Some(items[position])
    case CreditsAdapter => None
  }

  /** The credits row built in `init`: a name-only header over an empty adapter. */
  function CreditsRow(creditsName: string): (row: ListRow)
    ensures row.header.name == creditsName && row.header.id.None?
    ensures row.adapter.CreditsAdapter? && Size(row.adapter) == 0
    ensures forall position: int :: Get(row.adapter, position) == None
  {
    ListRow(HeaderItem(None, creditsName), CreditsAdapter)
  }

  // ---------------------------------------------------------------------------------------
  // Rows

  /** `metadata.filter { it.collectionId == collectionId }`. */
  function Filter(metadata: seq<TvMediaMetadata>, collectionId: string): (r: seq<TvMediaMetadata>)
    ensures |r| <= |metadata|
    ensures forall m :: m in r <==> m in metadata && m.collectionId == collectionId
  {
    if |metadata| == 0 then []
    else (if metadata[0].collectionId == collectionId then [metadata[0]] else []) + Filter(metadata[1..], collectionId)
  }

  /** Filtering a concatenation filters each part and keeps their order. */
  lemma {:induction false} FilterAppend(a: seq<TvMediaMetadata>, b: seq<TvMediaMetadata>, collectionId: string)
    ensures Filter(a + b, collectionId) == Filter(a, collectionId) + Filter(b, collectionId)
  {
    if |a| > 0 {
      assert (a + b)[1..] == a[1..] + b;
      FilterAppend(a[1..], b, collectionId);
    } else {
      assert a + b == b;
    }
  }

  /** Filtering keeps a list whose records all match, and empties one where none does. */
  lemma {:induction false} FilterAllOrNone(s: seq<TvMediaMetadata>, collectionId: string)
    ensures (forall m :: m in s ==> m.collectionId == collectionId) ==> Filter(s, collectionId) == s
    ensures (forall m :: m in s ==> m.collectionId != collectionId) ==> Filter(s, collectionId) == []
  {
    if |s| > 0 {
      FilterAllOrNone(s[1..], collectionId);
      assert s == [s[0]] + s[1..];
    }
  }

  /** The rows `populateAdapter` builds: one per collection with header `(i, title)` and the
      records of that collection, then the credits row. */
  function BuildRows(collections: seq<TvMediaCollection>, metadata: seq<TvMediaMetadata>, creditsRow: ListRow): (rows: seq<ListRow>)
    ensures |rows| == |collections| + 1 && rows[|collections|] == creditsRow
    ensures forall i :: 0 <= i < |collections| ==>
      rows[i].header == HeaderItem(Some(i), collections[i].title) &&
      rows[i].adapter.ArrayAdapter? &&
      rows[i].adapter.items == Filter(metadata, collections[i].id) &&
      forall m :: m in rows[i].adapter.items <==> m in metadata && m.collectionId == collections[i].id
  {
    seq(|collections|, i requires 0 <= i < |collections| =>
      ListRow(HeaderItem(Some(i), collections[i].title), ArrayAdapter(Filter(metadata, collections[i].id))))
    + [creditsRow]
  }

  /** A record whose `collectionId` names no collection appears in no collection row. */
  lemma UnmatchedRecordsAreNotShown(collections: seq<TvMediaCollection>, metadata: seq<TvMediaMetadata>,
                                    creditsRow: ListRow, m: TvMediaMetadata)
    requires forall c :: c in collections ==> m.collectionId != c.id
    ensures forall i :: 0 <= i < |collections| ==> m !in BuildRows(collections, metadata, creditsRow)[i].adapter.items
  {
    var rows := BuildRows(collections, metadata, creditsRow);
    forall i | 0 <= i < |collections| ensures m !in rows[i].adapter.items {
      assert collections[i] in collections;
    }
  }

  /** With distinct collection ids, the records grouped by collection and then concatenated
      are filtered back into exactly the group of each collection. */
  lemma {:induction false} FilterRecoversGroup(lists: seq<seq<TvMediaMetadata>>, ids: seq<string>, i: nat)
    requires |lists| == |ids| && i < |ids|
    requires forall j, k :: 0 <= j < k < |ids| ==> ids[j] != ids[k]
    requires forall j :: 0 <= j < |lists| ==> forall m :: m in lists[j] ==> m.collectionId == ids[j]
    ensures Filter(FeedParser.Flatten(lists), ids[i]) == lists[i]
  {
    var n := |lists| - 1;
    var init := lists[..n];
    FilterAppend(FeedParser.Flatten(init), lists[n], ids[i]);
    FilterAllOrNone(lists[n], ids[i]);
    if i == n {
      forall m: TvMediaMetadata | m in FeedParser.Flatten(init) ensures m.collectionId != ids[i] {
        FeedParser.FlattenMembership(init, m);
        var j :| 0 <= j < |init| && m in init[j];
        assert init[j] == lists[j];
      }
      FilterAllOrNone(FeedParser.Flatten(init), ids[i]);
    } else {
      FilterRecoversGroup(init, ids[..n], i);
    }
  }

  /** For a parsed feed whose collection ids are distinct, row `i` shows exactly the records of
      the `i`-th `feed` element's items, in document order. */
  lemma RowsOfParsedFeed(doc: Json.Json, r: FeedParser.FeedParseResult, creditsRow: ListRow, i: nat)
    requires FeedParser.ParseMediaFeedSpec(doc) == Success(r)
    requires forall j, k :: 0 <= j < k < |r.collections| ==> r.collections[j].id != r.collections[k].id
    requires i < |r.collections|
    ensures doc.JObj? && "feed" in doc.o && doc.o["feed"].JArr? && i < |doc.o["feed"].a|
    ensures BuildRows(r.collections, r.metadata, creditsRow)[i].adapter == ArrayAdapter(FeedParser.ItemsOf(doc.o["feed"].a[i]))
  {
    FeedParser.ParseMediaFeedParts(doc, r);
    var feed := doc.o["feed"].a;
    var lists := seq(|feed|, j requires 0 <= j < |feed| => FeedParser.ItemsOf(feed[j]));
    var ids := seq(|r.collections|, j requires 0 <= j < |r.collections| => r.collections[j].id);
    forall j | 0 <= j < |lists| ensures forall m: TvMediaMetadata :: m in lists[j] ==> m.collectionId == ids[j] {
      forall m: TvMediaMetadata | m in lists[j] ensures m.collectionId == ids[j] {
        FeedParser.ItemsOfCarry(feed[j], m);
      }
    }
    FilterRecoversGroup(lists, ids, i);
  }

  // ---------------------------------------------------------------------------------------
  // `listRowDiffCallback`

  /** `areContentsTheSame`: the two rows' hash codes agree (`rowHash` is `ListRow.hashCode`). */
  function AreContentsTheSame(oldItem: ListRow, newItem: ListRow, rowHash: ListRow -> int): (r: bool)
    ensures oldItem == newItem ==> r
  {
    rowHash(oldItem) == rowHash(newItem)
  }

  /** Whatever the row hash, `areContentsTheSame` is an equivalence on rows. */
  lemma AreContentsTheSameIsEquivalence(a: ListRow, b: ListRow, c: ListRow, rowHash: ListRow -> int)
    ensures AreContentsTheSame(a, a, rowHash)
    ensures AreContentsTheSame(a, b, rowHash) ==> AreContentsTheSame(b, a, rowHash)
    ensures AreContentsTheSame(a, b, rowHash) && AreContentsTheSame(b, c, rowHash) ==> AreContentsTheSame(a, c, rowHash)
  {
  }

  /**
   * `areItemsTheSame` as written: equal headers, equal sizes, and every element of `oldItem`
   * equal to the element of `oldItem` at the same position. `headerEq` and `elementEq` are
   * the `==` of `HeaderItem` and of the row elements.
   */
  function AreItemsTheSame(oldItem: ListRow, newItem: ListRow,
                           headerEq: (HeaderItem, HeaderItem) -> bool,
                           elementEq: (Option<TvMediaMetadata>, Option<TvMediaMetadata>) -> bool): (r: bool)
    ensures r ==> headerEq(oldItem.header, newItem.header) && Size(oldItem.adapter) == Size(newItem.adapter)
    ensures (forall x :: elementEq(x, x)) ==>
      (r <==> headerEq(oldItem.header, newItem.header) && Size(oldItem.adapter) == Size(newItem.adapter))
  {
    headerEq(oldItem.header, newItem.header) &&
    Size(oldItem.adapter) == Size(newItem.adapter) &&
    forall idx :: 0 <= idx < Size(oldItem.adapter) ==>
      elementEq(Get(oldItem.adapter, idx), Get(oldItem.adapter, idx))
  }

  /** Whatever the element equality, an element that is not equal to itself makes every
      comparison with the old row fail. */
  lemma AreItemsTheSameIrreflexiveElement(oldItem: ListRow, newItem: ListRow, idx: nat,
                                          headerEq: (HeaderItem, HeaderItem) -> bool,
                                          elementEq: (Option<TvMediaMetadata>, Option<TvMediaMetadata>) -> bool)
    requires idx < Size(oldItem.adapter)
    requires !elementEq(Get(oldItem.adapter, idx), Get(oldItem.adapter, idx))
    ensures !AreItemsTheSame(oldItem, newItem, headerEq, elementEq)
  {
  }

  function StructuralHeaderEq(a: HeaderItem, b: HeaderItem): bool {
    a == b
  }

  function StructuralElementEq(a: Option<TvMediaMetadata>, b: Option<TvMediaMetadata>): bool {
    a == b
  }

  /** Counterexample under structural header and element equality: two rows with the same
      header and one element each, the elements being different records, are reported as the
      same item. */
  lemma AreItemsTheSameCounterexample()
    ensures var header := HeaderItem(Some(0), "T");
            var a := NewMetadata("i1", "c1", "A", "http://x/a.mp4");
            var b := NewMetadata("i2", "c1", "B", "http://x/b.mp4");
            a != b &&
            AreItemsTheSame(ListRow(header, ArrayAdapter([a])), ListRow(header, ArrayAdapter([b])),
                            StructuralHeaderEq, StructuralElementEq)
  {
  }

  /**
   * The app's `==` on row elements, `TvMediaMetadata.equals` behind Kotlin's `==`, applied as
   * `areItemsTheSame` applies it: to two references to the same element. `null == null`
   * holds, and a record equals itself only when it is stateless.
   */
  function AppElementEq(a: Option<TvMediaMetadata>, b: Option<TvMediaMetadata>): (r: bool)
    ensures a == b && a.Some? ==> (r <==> IsStateless(a.value))
    ensures a == b && a.None? ==> r
  {
    match (a, b)
    case (None, None) => true
    case (Some(x), Some(y)) => x == y && IsStateless(x)
    case _ => false
  }

  /** `AppElementEq` on one object is the identity-based `equals` of that object with itself. */
  lemma AppElementEqIsIdentityOnSameObject(o: Obj, freshAddr: nat)
    requires freshAddr != o.addr
    ensures AppElementEq(Some(o.value), Some(o.value)) == IdentityEquals(o, o, freshAddr)
  {
  }

  /**
   * As the app runs: a collection row built from a parsed feed holds only records that carry
   * state, so with the app's element `==` a non-empty row is never the same item as any row,
   * itself included. The corrected pairwise check gives the same answer, so this outcome comes
   * from `TvMediaMetadata.equals`, not from the self-comparison.
   */
  lemma AreItemsTheSameFailsOnParsedRows(doc: Json.Json, r: FeedParser.FeedParseResult, creditsRow: ListRow,
                                         i: nat, newItem: ListRow, headerEq: (HeaderItem, HeaderItem) -> bool)
    requires FeedParser.ParseMediaFeedSpec(doc) == Success(r)
    requires i < |r.collections|
    requires Size(BuildRows(r.collections, r.metadata, creditsRow)[i].adapter) > 0
    ensures !AreItemsTheSame(BuildRows(r.collections, r.metadata, creditsRow)[i], newItem, headerEq, AppElementEq)
    ensures !AreItemsTheSamePairwise(BuildRows(r.collections, r.metadata, creditsRow)[i], newItem, headerEq, AppElementEq)
  {
    var row := BuildRows(r.collections, r.metadata, creditsRow)[i];
    var m := row.adapter.items[0];
    assert m in row.adapter.items;
    FeedParser.ParsedRecordsCarryState(doc, r);
    assert !AppElementEq(Get(row.adapter, 0), Get(row.adapter, 0));
    if Size(row.adapter) == Size(newItem.adapter) {
      assert !AppElementEq(Get(row.adapter, 0), Get(newItem.adapter, 0));
    }
  }

  /** The element list a row's adapter shows, `get(0) … get(size() - 1)`. */
  function Elements(a: ObjectAdapter): (r: seq<Option<TvMediaMetadata>>)
    ensures |r| == Size(a) && forall i :: 0 <= i < Size(a) ==> r[i] == Get(a, i)
  {
    seq(Size(a), i requires 0 <= i < Size(a) => Get(a, i))
  }

  /** `areItemsTheSame` as intended: elements compared pairwise between the old and new row. */
  function AreItemsTheSamePairwise(oldItem: ListRow, newItem: ListRow,
                                   headerEq: (HeaderItem, HeaderItem) -> bool,
                                   elementEq: (Option<TvMediaMetadata>, Option<TvMediaMetadata>) -> bool): (r: bool)
    ensures r ==> headerEq(oldItem.header, newItem.header) && Size(oldItem.adapter) == Size(newItem.adapter)
    ensures oldItem == newItem && headerEq(oldItem.header, oldItem.header) && (forall x :: elementEq(x, x)) ==> r
  {
    headerEq(oldItem.header, newItem.header) &&
    Size(oldItem.adapter) == Size(newItem.adapter) &&
    forall idx :: 0 <= idx < Size(oldItem.adapter) ==>
      elementEq(Get(oldItem.adapter, idx), Get(newItem.adapter, idx))
  }

  /** Under structural equality, the pairwise comparison holds exactly when the two rows have
      the same header and show the same elements. */
  lemma AreItemsTheSamePairwiseIsSameDisplay(oldItem: ListRow, newItem: ListRow)
    ensures AreItemsTheSamePairwise(oldItem, newItem, StructuralHeaderEq, StructuralElementEq) <==>
      oldItem.header == newItem.header && Elements(oldItem.adapter) == Elements(newItem.adapter)
  {
    var eo, en := Elements(oldItem.adapter), Elements(newItem.adapter);
    if oldItem.header == newItem.header && eo == en {
      forall idx | 0 <= idx < Size(oldItem.adapter)
        ensures Get(oldItem.adapter, idx) == Get(newItem.adapter, idx)
      {
        assert eo[idx] == en[idx];
      }
    }
  }

  // ---------------------------------------------------------------------------------------
  // The main adapter

  /** The fragment's main `ArrayObjectAdapter` of rows, with the credits row made in `init`. */
  class BrowseAdapter {
    var rows: seq<ListRow>
    const creditsRow: ListRow

    /** `init()`: an empty main adapter and the credits row. */
    constructor (creditsName: string)
      ensures rows == [] && creditsRow == CreditsRow(creditsName)
    {
      rows := [];
      creditsRow := CreditsRow(creditsName);
    }

    /** `setItems(newRows, diffCallback)`: the adapter ends up holding the new rows; the diff
        only decides how the change is animated. */
    method SetItems(newRows: seq<ListRow>)
      modifies this
      ensures rows == newRows
    {
      rows := newRows;
    }

    /**
     * The population step after the view is laid out: only when the adapter holds at most one
     * row is the feed parsed and the rows replaced. A parse failure propagates before any row
     * is replaced.
     */
    method PopulateIfEmpty(doc: Json.Json) returns (populated: bool, failure: Option<Json.JsonError>)
      modifies this
      ensures populated <==> old(|rows|) <= 1 && FeedParser.ParseMediaFeedSpec(doc).Success?
      ensures failure.Some? <==> old(|rows|) <= 1 && FeedParser.ParseMediaFeedSpec(doc).Failure?
      ensures failure.Some? ==> failure.value == FeedParser.ParseMediaFeedSpec(doc).error
      ensures rows == if populated then
          var feed := FeedParser.ParseMediaFeedSpec(doc).value;
          BuildRows(feed.collections, feed.metadata, creditsRow)
        else old(rows)
      ensures populated ==> |rows| >= 1 && rows[|rows| - 1] == creditsRow
    {
      populated, failure := false, None;
      if |rows| <= 1 {
        var mediaFeed := FeedParser.ParseMediaFeed(doc);
        if mediaFeed.Failure? {
          failure := Some(mediaFeed.error);
          return;
        }
        var feed := mediaFeed.value;
        SetItems(BuildRows(feed.collections, feed.metadata, creditsRow));
        populated := true;
      }
    }
  }

  /** After a population, the adapter holds more than one row exactly when the feed had a
      collection, so an empty feed leaves population enabled. */
  lemma PopulatedRowsDisablePopulation(collections: seq<TvMediaCollection>, metadata: seq<TvMediaMetadata>, creditsRow: ListRow)
    ensures |BuildRows(collections, metadata, creditsRow)| <= 1 <==> |collections| == 0
  {
  }
}
