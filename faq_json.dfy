/**
 * json/FaqDeserializer.java: the FAQ document, a JSON array of category
 * groups each holding an array "faqs" of question/answer objects, read
 * into one flat list of FaqEntry.  The deserializer numbers entries from
 * its own field faqIdTally, which starts at 1, is post-incremented as an
 * int for every entry built and is never reset: a second document read by
 * the same instance continues the numbering, and entries built before a
 * failure have used their ids.
 */
module FaqJson {
  import opened JavaLang
  import opened Json
  import opened FaqEntries

  /**
   * Where a read stands: the entries built so far, the exception that
   * stopped it (if one did) and the tally.  A finished read returns the
   * entries when no exception stopped it.
   */
  datatype FaqRun = FaqRun(parsed: seq<FaqEntry>, error: Option<Exception>, tally: int)

  /** parseEntry: an object with text "q" and "a", numbered with the current tally. */
  function EntryOf(category: string, j: Json, id: int): (r: Result<FaqEntry, Exception>)
    ensures r.Success? <==> j.JObject? && IsTextual(Path(j, "q")) && IsTextual(Path(j, "a"))
    ensures r.Failure? ==> r.error == JsonDeserializer
    ensures r.Success? ==> r.value == FaqEntry(id, category, Path(j, "q").json.s, Path(j, "a").json.s)
  {
    if !j.JObject? then Failure(JsonDeserializer)
    else
      var q := Path(j, "q");
      var a := Path(j, "a");
      if !IsTextual(q) || !IsTextual(a) then Failure(JsonDeserializer)
      else Success(FaqEntry(id, category, q.json.s, a.json.s))
  }

  /** One entry of a group; a stopped read stays stopped. */
  function StepEntry(run: FaqRun, category: string, j: Json): FaqRun
  {
    if run.error.Some? then run
    else
      var e := EntryOf(category, j, run.tally);
      if e.Failure? then run.(error := Some(e.error))
      else FaqRun(run.parsed + [e.value], None, WrapInt(run.tally + 1))
  }

  /** The inner loop over a group's "faqs", in order. */
  function EntriesRun(run: FaqRun, category: string, items: seq<Json>): FaqRun
  {
    if |items| == 0 then run
    else StepEntry(EntriesRun(run, category, items[..|items| - 1]), category, items[|items| - 1])
  }

  /** A group the outer loop accepts: an object with a text "category" and an array "faqs". */
  predicate GoodGroup(g: Json)
  {
    g.JObject? && IsTextual(Path(g, "category")) && IsArrayNode(Path(g, "faqs"))
  }

  /** One group: checked, then its entries. */
  function StepGroup(run: FaqRun, g: Json): FaqRun
  {
    if run.error.Some? then run
    else if !GoodGroup(g) then run.(error := Some(JsonDeserializer))
    else EntriesRun(run, Path(g, "category").json.s, Path(g, "faqs").json.items)
  }

  /** The outer loop over the groups, in order. */
  function GroupsRun(run: FaqRun, groups: seq<Json>): FaqRun
  {
    if |groups| == 0 then run
    else StepGroup(GroupsRun(run, groups[..|groups| - 1]), groups[|groups| - 1])
  }

  /** fromInputStream from a tally: readTree's failure (None) and a non-array root stop at once. */
  function FaqFromTree(tree: Option<Json>, tally: int): (run: FaqRun)
    ensures tree.None? || !tree.value.JArray? ==> run == FaqRun([], Some(JsonDeserializer), tally)
  {
    if tree.None? || !tree.value.JArray? then FaqRun([], Some(JsonDeserializer), tally)
    else GroupsRun(FaqRun([], None, tally), tree.value.items)
  }

  // ---------------------------------------------------------------------
  // Numbering
  // ---------------------------------------------------------------------

  /** Entries numbered consecutively from `start`, and the tally just past the last of them. */
  predicate Numbered(run: FaqRun, start: int)
  {
    run.tally == WrapInt(start + |run.parsed|)
    && forall i :: 0 <= i < |run.parsed| ==> run.parsed[i].id == WrapInt(start + i)
  }

  /** Incrementing a wrapped tally is wrapping the incremented count. */
  lemma WrapSucc(x: int)
    ensures WrapInt(WrapInt(x) + 1) == WrapInt(x + 1)
  {
    WrapIntCongruent(WrapInt(x) + 1, x + 1);
  }

  lemma StepEntryNumbered(run: FaqRun, start: int, category: string, j: Json)
    requires Numbered(run, start)
    ensures Numbered(StepEntry(run, category, j), start)
  {
    if run.error.None? && EntryOf(category, j, run.tally).Success? {
      WrapSucc(start + |run.parsed|);
    }
  }

  lemma {:induction false} EntriesRunNumbered(run: FaqRun, start: int, category: string, items: seq<Json>)
    requires Numbered(run, start)
    ensures Numbered(EntriesRun(run, category, items), start)
  {
    if |items| > 0 {
      EntriesRunNumbered(run, start, category, items[..|items| - 1]);
      StepEntryNumbered(EntriesRun(run, category, items[..|items| - 1]), start, category, items[|items| - 1]);
    }
  }

  lemma {:induction false} GroupsRunNumbered(run: FaqRun, start: int, groups: seq<Json>)
    requires Numbered(run, start)
    ensures Numbered(GroupsRun(run, groups), start)
  {
    if |groups| > 0 {
      var before := GroupsRun(run, groups[..|groups| - 1]);
      GroupsRunNumbered(run, start, groups[..|groups| - 1]);
      var g := groups[|groups| - 1];
      if before.error.None? && GoodGroup(g) {
        EntriesRunNumbered(before, start, Path(g, "category").json.s, Path(g, "faqs").json.items);
      }
    }
  }

  /**
   * Whatever the outcome, the entries built carry the ids start, start+1,
   * ... in int arithmetic, and the tally ends just past the last of them:
   * on a failure the ids of the entries built before it are used up.
   */
  lemma IdsConsecutive(tree: Option<Json>, start: int)
    requires IsInt(start)
    ensures var run := FaqFromTree(tree, start);
            run.tally == WrapInt(start + |run.parsed|)
            && forall i :: 0 <= i < |run.parsed| ==> run.parsed[i].id == WrapInt(start + i)
  {
    if tree.Some? && tree.value.JArray? {
      GroupsRunNumbered(FaqRun([], None, start), start, tree.value.items);
    }
  }

  /**
   * As long as the numbering does not pass Integer.MAX_VALUE, the entries
   * of a read have distinct ids.
   */
  lemma IdsDistinct(tree: Option<Json>, start: int)
    requires IsInt(start)
    requires start + |FaqFromTree(tree, start).parsed| - 1 <= INT_MAX
    ensures DistinctIds(FaqFromTree(tree, start).parsed)
  {
    var parsed := FaqFromTree(tree, start).parsed;
    IdsConsecutive(tree, start);
    forall i, j | 0 <= i < j < |parsed|
      ensures parsed[i].id != parsed[j].id
    {
      assert parsed[i].id == start + i && parsed[j].id == start + j;
    }
  }

  // ---------------------------------------------------------------------
  // Flattening
  // ---------------------------------------------------------------------

  /** An entry without its id: category, question, answer. */
  function Content(e: FaqEntry): (string, string, string)
  {
    (e.category, e.question, e.answer)
  }

  function Contents(entries: seq<FaqEntry>): (c: seq<(string, string, string)>)
    ensures |c| == |entries|
  {
    if |entries| == 0 then [] else Contents(entries[..|entries| - 1]) + [Content(entries[|entries| - 1])]
  }

  /** The text of a node, "" for a node that is not text. */
  function TextOr(n: Node): string
  {
    if IsTextual(n) then n.json.s else ""
  }

  /** What a group's "faqs" contribute: each entry tagged with the category, in order. */
  function GroupContents(category: string, items: seq<Json>): (c: seq<(string, string, string)>)
    ensures |c| == |items|
  {
    if |items| == 0 then []
    else
      var j := items[|items| - 1];
      GroupContents(category, items[..|items| - 1]) + [(category, TextOr(Path(j, "q")), TextOr(Path(j, "a")))]
  }

  /** The groups flattened in document order. */
  function DocumentContents(groups: seq<Json>): seq<(string, string, string)>
  {
    if |groups| == 0 then []
    else
      var g := groups[|groups| - 1];
      DocumentContents(groups[..|groups| - 1]) + GroupContents(TextOr(Path(g, "category")), ArrayItems(Path(g, "faqs")))
  }

  /** The elements of an array node, none for any other node. */
  function ArrayItems(n: Node): seq<Json>
  {
    if IsArrayNode(n) then n.json.items else []
  }

  /** The total number of entries over all groups' "faqs". */
  function TotalFaqs(groups: seq<Json>): nat
  {
    if |groups| == 0 then 0
    else TotalFaqs(groups[..|groups| - 1]) + |ArrayItems(Path(groups[|groups| - 1], "faqs"))|
  }

  lemma ContentsAppend(entries: seq<FaqEntry>, e: FaqEntry)
    ensures Contents(entries + [e]) == Contents(entries) + [Content(e)]
  {
    assert (entries + [e])[..|entries|] == entries;
  }

  lemma {:induction false} EntriesRunContents(run: FaqRun, category: string, items: seq<Json>)
    requires EntriesRun(run, category, items).error.None?
    ensures run.error.None?
    ensures Contents(EntriesRun(run, category, items).parsed) == Contents(run.parsed) + GroupContents(category, items)
  {
    if |items| > 0 {
      var init := items[..|items| - 1];
      var before := EntriesRun(run, category, init);
      assert before.error.None?;
      EntriesRunContents(run, category, init);
      var e := EntryOf(category, items[|items| - 1], before.tally).value;
      ContentsAppend(before.parsed, e);
    }
  }

  lemma AppendAssoc<T>(a: seq<T>, b: seq<T>, c: seq<T>)
    ensures (a + b) + c == a + (b + c)
  {
  }

  lemma {:induction false} GroupsRunContents(run: FaqRun, groups: seq<Json>)
    requires GroupsRun(run, groups).error.None?
    ensures run.error.None?
    ensures Contents(GroupsRun(run, groups).parsed) == Contents(run.parsed) + DocumentContents(groups)
  {
    if |groups| > 0 {
      var init := groups[..|groups| - 1];
      var g := groups[|groups| - 1];
      var before := GroupsRun(run, init);
      var category, items := TextOr(Path(g, "category")), ArrayItems(Path(g, "faqs"));
      assert before.error.None? && GoodGroup(g);
      GroupsRunContents(run, init);
      EntriesRunContents(before, category, items);
      AppendAssoc(Contents(run.parsed), DocumentContents(init), GroupContents(category, items));
    }
  }

  lemma {:induction false} DocumentContentsLength(groups: seq<Json>)
    ensures |DocumentContents(groups)| == TotalFaqs(groups)
  {
    if |groups| > 0 {
      DocumentContentsLength(groups[..|groups| - 1]);
    }
  }

  /**
   * A document that reads without error gives every group's entries, in
   * document order, each tagged with its group's category; their number is
   * the sum of the lengths of the "faqs" arrays.
   */
  lemma FlattenedInOrder(tree: Option<Json>, start: int)
    requires FaqFromTree(tree, start).error.None?
    ensures tree.Some? && tree.value.JArray?
    ensures Contents(FaqFromTree(tree, start).parsed) == DocumentContents(tree.value.items)
    ensures |FaqFromTree(tree, start).parsed| == TotalFaqs(tree.value.items)
  {
    GroupsRunContents(FaqRun([], None, start), tree.value.items);
    DocumentContentsLength(tree.value.items);
  }

  // ---------------------------------------------------------------------
  // Failure
  // ---------------------------------------------------------------------

  lemma {:induction false} EntriesRunStopped(run: FaqRun, category: string, items: seq<Json>)
    requires run.error.Some?
    ensures EntriesRun(run, category, items) == run
  {
    if |items| > 0 {
      EntriesRunStopped(run, category, items[..|items| - 1]);
    }
  }

  lemma {:induction false} GroupsRunStopped(run: FaqRun, groups: seq<Json>)
    requires run.error.Some?
    ensures GroupsRun(run, groups) == run
  {
    if |groups| > 0 {
      GroupsRunStopped(run, groups[..|groups| - 1]);
    }
  }

  lemma {:induction false} EntriesRunErrors(run: FaqRun, category: string, items: seq<Json>)
    requires run.error.None? || run.error == Some(JsonDeserializer)
    ensures var r := EntriesRun(run, category, items); r.error.None? || r.error == Some(JsonDeserializer)
  {
    if |items| > 0 {
      EntriesRunErrors(run, category, items[..|items| - 1]);
    }
  }

  lemma {:induction false} GroupsRunErrors(run: FaqRun, groups: seq<Json>)
    requires run.error.None? || run.error == Some(JsonDeserializer)
    ensures var r := GroupsRun(run, groups); r.error.None? || r.error == Some(JsonDeserializer)
  {
    if |groups| > 0 {
      var before := GroupsRun(run, groups[..|groups| - 1]);
      GroupsRunErrors(run, groups[..|groups| - 1]);
      var g := groups[|groups| - 1];
      if before.error.None? && GoodGroup(g) {
        EntriesRunErrors(before, Path(g, "category").json.s, Path(g, "faqs").json.items);
      }
    }
  }

  /** The only exception the FAQ deserializer throws is JsonDeserializerException. */
  lemma FaqErrors(tree: Option<Json>, start: int)
    ensures var r := FaqFromTree(tree, start); r.error.None? || r.error == Some(JsonDeserializer)
  {
    if tree.Some? && tree.value.JArray? {
      GroupsRunErrors(FaqRun([], None, start), tree.value.items);
    }
  }

  /** A malformed group stops the read, whatever groups come after it. */
  lemma BadGroupStops(groups: seq<Json>, i: int, start: int)
    requires 0 <= i < |groups| && !GoodGroup(groups[i])
    ensures GroupsRun(FaqRun([], None, start), groups).error.Some?
  {
    var run := FaqRun([], None, start);
    var upto := GroupsRun(run, groups[..i + 1]);
    assert groups[..i + 1][..i] == groups[..i];
    assert upto.error.Some?;
    GroupsRunSuffix(run, groups[..i + 1], groups[i + 1..]);
    assert groups[..i + 1] + groups[i + 1..] == groups;
    GroupsRunStopped(upto, groups[i + 1..]);
  }

  /** Reading a + b is reading a, then b from where a left off. */
  lemma {:induction false} GroupsRunSuffix(run: FaqRun, a: seq<Json>, b: seq<Json>)
    ensures GroupsRun(run, a + b) == GroupsRun(GroupsRun(run, a), b)
  {
    if |b| == 0 {
      assert a + b == a;
    } else {
      assert (a + b)[..|a + b| - 1] == a + b[..|b| - 1];
      GroupsRunSuffix(run, a, b[..|b| - 1]);
    }
  }

  // ---------------------------------------------------------------------
  // The deserializer
  // ---------------------------------------------------------------------

  class FaqDeserializer {
    /** faqIdTally: the id the next entry gets. */
    var faqIdTally: int

    /** A fresh deserializer numbers from 1. */
    constructor()
      ensures faqIdTally == 1
    {
      faqIdTally := 1;
    }

    /**
     * fromInputStream: the outer loop over the groups, the inner loop over
     * each group's entries, faqIdTally++ per entry.  The returned list and
     * the new tally are those FaqFromTree describes.
     */
    method FromInputStream(tree: Option<Json>) returns (r: Result<seq<FaqEntry>, Exception>)
      modifies this
      ensures var run := FaqFromTree(tree, old(faqIdTally));
              faqIdTally == run.tally && (r.Failure? <==> run.error.Some?)
              && (r.Failure? ==> r.error == run.error.value) && (r.Success? ==> r.value == run.parsed)
    {
      if tree.None? || !tree.value.JArray? {
        return Failure(JsonDeserializer);
      }
      var groups := tree.value.items;
      ghost var start := FaqRun([], None, faqIdTally);
      var result: seq<FaqEntry> := [];
      var i := 0;
      while i < |groups|
        invariant 0 <= i <= |groups|
        invariant GroupsRun(start, groups[..i]) == FaqRun(result, None, faqIdTally)
      {
        assert groups[..i + 1][..i] == groups[..i];
        var node := groups[i];
        var categoryName := Path(node, "category");
        var entries := Path(node, "faqs");
        if !node.JObject? || !IsTextual(categoryName) || !IsArrayNode(entries) {
          StopAfter(start, groups, i);
          return Failure(JsonDeserializer);
        }
        var e := ReadEntries(result, categoryName.json.s, entries.json.items);
        if e.Failure? {
          StopAfter(start, groups, i);
          return e;
        }
        result := e.value;
        i := i + 1;
      }
      assert groups[..i] == groups;
      return Success(result);
    }

    /**
     * The inner loop over one group's "faqs": each entry is parsed with
     * the group's category and appended to the list built so far.
     */
    method ReadEntries(result: seq<FaqEntry>, category: string, items: seq<Json>) returns (r: Result<seq<FaqEntry>, Exception>)
      modifies this
      ensures var run := EntriesRun(FaqRun(result, None, old(faqIdTally)), category, items);
              faqIdTally == run.tally && (r.Failure? <==> run.error.Some?)
              && (r.Failure? ==> r.error == run.error.value) && (r.Success? ==> r.value == run.parsed)
    {
      ghost var before := FaqRun(result, None, faqIdTally);
      var list := result;
      var k := 0;
      while k < |items|
        invariant 0 <= k <= |items|
        invariant EntriesRun(before, category, items[..k]) == FaqRun(list, None, faqIdTally)
      {
        assert items[..k + 1][..k] == items[..k];
        var e := ParseEntry(category, items[k]);
        if e.Failure? {
          ghost var stopped := EntriesRun(before, category, items[..k + 1]);
          EntriesRunStopped(stopped, category, items[k + 1..]);
          assert items[..k + 1] + items[k + 1..] == items;
          EntriesRunSuffix(before, category, items[..k + 1], items[k + 1..]);
          return Failure(e.error);
        }
        list := list + [e.value];
        k := k + 1;
      }
      assert items[..k] == items;
      return Success(list);
    }

    /** parseEntry: checks the entry, then builds it with faqIdTally++. */
    method ParseEntry(category: string, objectRoot: Json) returns (r: Result<FaqEntry, Exception>)
      modifies this
      ensures r == EntryOf(category, objectRoot, old(faqIdTally))
      ensures faqIdTally == if r.Success? then WrapInt(old(faqIdTally) + 1) else old(faqIdTally)
    {
      if !objectRoot.JObject? {
        return Failure(JsonDeserializer);
      }
      var q := Path(objectRoot, "q");
      var a := Path(objectRoot, "a");
      if !IsTextual(q) || !IsTextual(a) {
        return Failure(JsonDeserializer);
      }
      var id := faqIdTally;
      faqIdTally := WrapInt(faqIdTally + 1);
      return Success(FaqEntry(id, category, q.json.s, a.json.s));
    }
  }

  /** Reading a + b of one group's entries is reading a, then b. */
  lemma {:induction false} EntriesRunSuffix(run: FaqRun, category: string, a: seq<Json>, b: seq<Json>)
    ensures EntriesRun(run, category, a + b) == EntriesRun(EntriesRun(run, category, a), category, b)
  {
    if |b| == 0 {
      assert a + b == a;
    } else {
      assert (a + b)[..|a + b| - 1] == a + b[..|b| - 1];
      EntriesRunSuffix(run, category, a, b[..|b| - 1]);
    }
  }

  /** When group i stops the read, the whole document's read is the read up to group i. */
  lemma StopAfter(start: FaqRun, groups: seq<Json>, i: int)
    requires 0 <= i < |groups|
    requires StepGroup(GroupsRun(start, groups[..i]), groups[i]).error.Some?
    ensures GroupsRun(start, groups) == StepGroup(GroupsRun(start, groups[..i]), groups[i])
  {
    assert groups[..i + 1][..i] == groups[..i];
    GroupsRunSuffix(start, groups[..i + 1], groups[i + 1..]);
    assert groups[..i + 1] + groups[i + 1..] == groups;
    GroupsRunStopped(GroupsRun(start, groups[..i + 1]), groups[i + 1..]);
  }

  /** Two reads by one instance: the second document's ids continue where the first stopped. */
  method ReadTwice(d: FaqDeserializer, first: Option<Json>, second: Option<Json>)
    returns (r1: Result<seq<FaqEntry>, Exception>, r2: Result<seq<FaqEntry>, Exception>)
    modifies d
    ensures r2 == (var run := FaqFromTree(second, FaqFromTree(first, old(d.faqIdTally)).tally);
                   if run.error.Some? then Failure(run.error.value) else Success(run.parsed))
  {
    r1 := d.FromInputStream(first);
    r2 := d.FromInputStream(second);
  }
}
