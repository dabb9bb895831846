/**
 * ui/faq/FaqAdapter.java and ui/faq/FaqFragment.java: the FAQ list shows a
 * category header above an entry exactly when that entry's id is in the
 * adapter's set entriesWithHeader, and the fragment fills that set with
 * the entries that begin a run of one category.
 */
module FaqHeaders {
  import opened JavaLang
  import opened FaqEntries

  class FaqAdapter {
    /** entriesWithHeader: the ids whose entry shows its category header. */
    var entriesWithHeader: set<int>
    /** The elements the adapter shows (ItemListAdapter.setItems). */
    var items: seq<FaqEntry>

    /** FaqAdapter(viewId, inflater, elements). */
    constructor(elements: seq<FaqEntry>)
      ensures entriesWithHeader == {} && items == elements
    {
      entriesWithHeader := {};
      items := elements;
    }

    /** clearHeaders. */
    method ClearHeaders()
      modifies this
      ensures entriesWithHeader == {} && items == old(items)
    {
      entriesWithHeader := {};
    }

    /** registerHeader: adds the entry's id; registering it twice is the same as once. */
    method RegisterHeader(entry: FaqEntry)
      modifies this
      ensures entriesWithHeader == old(entriesWithHeader) + {entry.id} && items == old(items)
    {
      entriesWithHeader := entriesWithHeader + {entry.id};
    }

    /** setItems. */
    method SetItems(elements: seq<FaqEntry>)
      modifies this
      ensures items == elements && entriesWithHeader == old(entriesWithHeader)
    {
      items := elements;
    }

    /**
     * The header decision of update(position, view, item): the category
     * text when the item's id is registered, hidden (None) otherwise.
     */
    function HeaderOf(item: FaqEntry): (header: Option<string>)
      reads this
      ensures header.Some? <==> item.id in entriesWithHeader
      ensures header.Some? ==> header.value == item.category
    {
      if item.id in entriesWithHeader then Some(item.category) else None
    }
  }

  /** Entries with the same id share the header's visibility, whatever their other fields. */
  lemma SameIdSameVisibility(adapter: FaqAdapter, a: FaqEntry, b: FaqEntry)
    requires a.id == b.id
    ensures adapter.HeaderOf(a).Some? <==> adapter.HeaderOf(b).Some?
  {
  }

  // ---------------------------------------------------------------------
  // Which entries start a category
  // ---------------------------------------------------------------------

  /** Entry i's category differs from the one before it; the first entry is compared with "". */
  predicate StartsRun(entries: seq<FaqEntry>, i: int)
    requires 0 <= i < |entries|
  {
    entries[i].category != (if i == 0 then "" else entries[i - 1].category)
  }

  /** The ids of the entries among the first n that start a run. */
  function HeaderIdsUpTo(entries: seq<FaqEntry>, n: int): set<int>
    requires 0 <= n <= |entries|
  {
    set k | 0 <= k < n && StartsRun(entries, k) :: entries[k].id
  }

  /** The ids updateCategoryHeaders registers for a list. */
  function HeaderIds(entries: seq<FaqEntry>): set<int>
  {
    HeaderIdsUpTo(entries, |entries|)
  }

  /** Taking one more entry adds its id exactly when it starts a run. */
  lemma HeaderIdsStep(entries: seq<FaqEntry>, n: int)
    requires 0 <= n < |entries|
    ensures HeaderIdsUpTo(entries, n + 1) == HeaderIdsUpTo(entries, n) + (if StartsRun(entries, n) then {entries[n].id} else {})
  {
    var bigger := HeaderIdsUpTo(entries, n + 1);
    var before := HeaderIdsUpTo(entries, n);
    var extra := if StartsRun(entries, n) then {entries[n].id} else {};
    var smaller := before + extra;
    forall x | x in bigger ensures x in smaller {
      var k :| 0 <= k < n + 1 && StartsRun(entries, k) && entries[k].id == x;
      if k < n {
        assert x in before;
      } else {
        assert x in extra;
      }
    }
    forall x | x in smaller ensures x in bigger {
      if x in HeaderIdsUpTo(entries, n) {
        var k :| 0 <= k < n && StartsRun(entries, k) && entries[k].id == x;
        assert 0 <= k < n + 1;
      }
    }
  }

  /** With distinct ids an entry shows a header exactly when it starts a run. */
  lemma HeaderExactlyAtRunStarts(entries: seq<FaqEntry>, i: int)
    requires DistinctIds(entries) && 0 <= i < |entries|
    ensures entries[i].id in HeaderIds(entries) <==> StartsRun(entries, i)
  {
    if entries[i].id in HeaderIds(entries) {
      var k :| 0 <= k < |entries| && StartsRun(entries, k) && entries[k].id == entries[i].id;
      assert k == i;
    }
  }

  /** How many of the first n entries start a run. */
  function RunStarts(entries: seq<FaqEntry>, n: int): nat
    requires 0 <= n <= |entries|
  {
    if n == 0 then 0 else RunStarts(entries, n - 1) + (if StartsRun(entries, n - 1) then 1 else 0)
  }

  /** Entry i (i >= 1) has another category than entry i - 1. */
  predicate CategoryChangesAt(entries: seq<FaqEntry>, i: int)
    requires 1 <= i < |entries|
  {
    entries[i].category != entries[i - 1].category
  }

  /** The number of maximal runs of equal categories. */
  function CategoryRuns(entries: seq<FaqEntry>): nat
  {
    if |entries| == 0 then 0
    else 1 + |set i | 1 <= i < |entries| && CategoryChangesAt(entries, i)|
  }

  /** A run start's id is new among the earlier run starts when ids are distinct. */
  lemma NewHeaderId(entries: seq<FaqEntry>, n: int)
    requires DistinctIds(entries) && 0 <= n < |entries|
    ensures entries[n].id !in HeaderIdsUpTo(entries, n)
  {
    forall k | 0 <= k < n
      ensures entries[k].id != entries[n].id
    {
    }
  }

  /** Adding an element that is new grows a set by one; adding nothing keeps its size. */
  lemma CardinalityStep(before: set<int>, after: set<int>, x: int, added: bool)
    requires after == before + (if added then {x} else {})
    requires added ==> x !in before
    ensures |after| == |before| + (if added then 1 else 0)
  {
  }

  lemma {:induction false} HeaderCountUpTo(entries: seq<FaqEntry>, n: int)
    requires DistinctIds(entries) && 0 <= n <= |entries|
    ensures |HeaderIdsUpTo(entries, n)| == RunStarts(entries, n)
  {
    if n > 0 {
      HeaderCountUpTo(entries, n - 1);
      HeaderCountStep(entries, n - 1);
    }
  }

  /** Entry n adds one header id exactly when it starts a run. */
  lemma HeaderCountStep(entries: seq<FaqEntry>, n: int)
    requires DistinctIds(entries) && 0 <= n < |entries|
    ensures |HeaderIdsUpTo(entries, n + 1)| == |HeaderIdsUpTo(entries, n)| + (if StartsRun(entries, n) then 1 else 0)
  {
    HeaderIdsStep(entries, n);
    NewHeaderId(entries, n);
    CardinalityStep(HeaderIdsUpTo(entries, n), HeaderIdsUpTo(entries, n + 1), entries[n].id, StartsRun(entries, n));
  }

  /** The category changes among positions 1..n-1. */
  function Changes(entries: seq<FaqEntry>, n: int): set<int>
    requires 1 <= n <= |entries|
  {
    set i | 1 <= i < n && CategoryChangesAt(entries, i)
  }

  lemma {:induction false} ChangesCount(entries: seq<FaqEntry>, n: int)
    requires 1 <= n <= |entries|
    ensures RunStarts(entries, n) == (if entries[0].category != "" then 1 else 0) + |Changes(entries, n)|
  {
    if n > 1 {
      ChangesCount(entries, n - 1);
      var last := n - 1;
      var extra := if StartsRun(entries, last) then {last} else {};
      assert Changes(entries, n) == Changes(entries, n - 1) + extra;
      assert last !in Changes(entries, n - 1);
    } else {
      assert Changes(entries, n) == {};
    }
  }

  /**
   * With distinct ids, the number of headers is the number of maximal
   * runs of equal categories when the first category is non-empty, and
   * one fewer when it is "": a category that recurs later counts again.
   */
  lemma HeaderCount(entries: seq<FaqEntry>)
    requires DistinctIds(entries) && |entries| > 0
    ensures entries[0].category != "" ==> |HeaderIds(entries)| == CategoryRuns(entries)
    ensures entries[0].category == "" ==> |HeaderIds(entries)| == CategoryRuns(entries) - 1
  {
    HeaderCountUpTo(entries, |entries|);
    ChangesCount(entries, |entries|);
  }

  // ---------------------------------------------------------------------
  // The fragment
  // ---------------------------------------------------------------------

  class FaqFragment {
    /** getListAdapter(), null before the list is set up. */
    var adapter: FaqAdapter?
    /** ItemListFragment.items. */
    var items: Option<seq<FaqEntry>>

    constructor(adapter: FaqAdapter?)
      ensures this.adapter == adapter && items == Some([])
    {
      this.adapter := adapter;
      items := Some([]);
    }

    /**
     * updateCategoryHeaders: no effect for a null adapter or null
     * entries; otherwise the headers are cleared and then exactly the run
     * starts are registered.
     */
    method UpdateCategoryHeaders(entries: Option<seq<FaqEntry>>)
      modifies if adapter == null then {} else {adapter}
      ensures adapter != null && entries.None? ==> unchanged(adapter)
      ensures adapter != null && entries.Some? ==>
                adapter.entriesWithHeader == HeaderIds(entries.value) && adapter.items == old(adapter.items)
    {
      var adapter := this.adapter;
      if adapter == null || entries.None? {
        return;
      }
      var list := entries.value;
      adapter.ClearHeaders();
      var category := "";
      var i := 0;
      while i < |list|
        invariant 0 <= i <= |list|
        invariant category == if i == 0 then "" else list[i - 1].category
        invariant adapter.entriesWithHeader == HeaderIdsUpTo(list, i)
        invariant adapter.items == old(adapter.items)
      {
        HeaderIdsStep(list, i);
        var entry := list[i];
        if category != entry.category {
          category := entry.category;
          adapter.RegisterHeader(entry);
        }
        i := i + 1;
      }
    }

    /**
     * onLoadFinished: the headers are recomputed from the new items first;
     * then ItemListFragment.onLoadFinished stores the items and hands them
     * to the adapter, which throws NullPointerException for a null adapter
     * or null items (the FAQ loader returns null when the document fails).
     */
    method OnLoadFinished(entries: Option<seq<FaqEntry>>) returns (r: Outcome<Exception>)
      modifies this, if adapter == null then {} else {adapter}
      ensures adapter == old(adapter) && items == entries
      ensures adapter == null || entries.None? ==> r == Fail(NullPointer)
      ensures adapter != null && entries.None? ==> unchanged(adapter)
      ensures adapter != null && entries.Some? ==>
                r == Pass && adapter.entriesWithHeader == HeaderIds(entries.value) && adapter.items == entries.value
    {
      UpdateCategoryHeaders(entries);
      items := entries;
      if adapter == null || entries.None? {
        return Fail(NullPointer);
      }
      adapter.SetItems(entries.value);
      return Pass;
    }
  }
}
