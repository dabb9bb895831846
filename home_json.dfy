/**
 * json/HomeDeserializer.java: the home page document, a JSON array of
 * objects with a text "header" and a text "contents", read into a list of
 * HomeSection in document order.
 */
module HomeJson {
  import opened JavaLang
  import opened Json

  /** model HomeSection: a header and its contents. */
  datatype HomeSection = HomeSection(header: string, contents: string)

  /** An element the loop accepts. */
  predicate GoodSection(j: Json)
  {
    j.JObject? && IsTextual(Path(j, "header")) && IsTextual(Path(j, "contents"))
  }

  /** The section an accepted element becomes. */
  function SectionOf(j: Json): HomeSection
    requires GoodSection(j)
  {
    HomeSection(Path(j, "header").json.s, Path(j, "contents").json.s)
  }

  /** The loop over the root array: every element in order, the first bad one failing the read. */
  function SectionsOf(items: seq<Json>): (r: Result<seq<HomeSection>, Exception>)
    ensures r.Failure? ==> r.error == JsonDeserializer
  {
    if |items| == 0 then Success([])
    else
      var before := SectionsOf(items[..|items| - 1]);
      var j := items[|items| - 1];
      if before.Failure? then before
      else if !GoodSection(j) then Failure(JsonDeserializer)
      else Success(before.value + [SectionOf(j)])
  }

  /** fromInputStream over readTree's result (None for its IOException). */
  function HomeFromTree(tree: Option<Json>): (r: Result<seq<HomeSection>, Exception>)
    ensures tree.None? || !tree.value.JArray? ==> r == Failure(JsonDeserializer)
    ensures r.Failure? ==> r.error == JsonDeserializer
  {
    if tree.None? || !tree.value.JArray? then Failure(JsonDeserializer) else SectionsOf(tree.value.items)
  }

  /**
   * The read succeeds exactly when every element is a good section, and it
   * then gives one section per element, in the same order.
   */
  lemma {:induction false} SectionsExactly(items: seq<Json>)
    ensures SectionsOf(items).Success? <==> forall k :: 0 <= k < |items| ==> GoodSection(items[k])
    ensures SectionsOf(items).Success? ==>
              |SectionsOf(items).value| == |items|
              && forall k :: 0 <= k < |items| ==> SectionsOf(items).value[k] == SectionOf(items[k])
  {
    if |items| > 0 {
      var init := items[..|items| - 1];
      SectionsExactly(init);
      assert forall k :: 0 <= k < |init| ==> init[k] == items[k];
    }
  }

  /** fromInputStream: the loop appending a HomeSection per element. */
  method FromInputStream(tree: Option<Json>) returns (r: Result<seq<HomeSection>, Exception>)
    ensures r == HomeFromTree(tree)
  {
    if tree.None? || !tree.value.JArray? {
      return Failure(JsonDeserializer);
    }
    var items := tree.value.items;
    var result: seq<HomeSection> := [];
    var i := 0;
    while i < |items|
      invariant 0 <= i <= |items|
      invariant SectionsOf(items[..i]) == Success(result)
    {
      assert items[..i + 1][..i] == items[..i];
      var node := items[i];
      if !node.JObject? {
        SectionsFailureSticks(items, i + 1);
        return Failure(JsonDeserializer);
      }
      var header := Path(node, "header");
      var contents := Path(node, "contents");
      if !IsTextual(header) || !IsTextual(contents) {
        SectionsFailureSticks(items, i + 1);
        return Failure(JsonDeserializer);
      }
      result := result + [HomeSection(header.json.s, contents.json.s)];
      i := i + 1;
    }
    assert items[..i] == items;
    return Success(result);
  }

  /** Once a prefix fails, the whole array fails the same way. */
  lemma {:induction false} SectionsFailureSticks(items: seq<Json>, n: int)
    requires 0 <= n <= |items| && SectionsOf(items[..n]).Failure?
    ensures SectionsOf(items) == SectionsOf(items[..n])
  {
    if n < |items| {
      var m := |items| - 1;
      assert items[..m][..n] == items[..n];
      SectionsFailureSticks(items[..m], n);
    } else {
      assert items[..n] == items;
    }
  }
}
