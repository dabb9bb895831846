/**
 * json/TwitterSearchDeserializer.java: a Twitter search reply, a JSON
 * object whose required metadata is checked first and whose "results"
 * array is then read tweet by tweet.  Every failure is a
 * JsonDeserializerException, the date parser's ParseException included.
 * SimpleDateFormat("E, dd MMM yyyy HH:mm:ss Z", Locale.US).parse is the
 * parameter `parseDate`: the instant in milliseconds, or None where it
 * throws.
 */
module TwitterJson {
  import opened JavaLang
  import opened Json

  /** model/Tweet.java, without the coordinates the deserializer never sets. */
  datatype Tweet = Tweet(createdAt: int, fromUser: string, fromUserId: int, fromUserName: Option<string>,
                         location: Option<string>, id: int, profileImageUrl: string, text: string)

  /** The search reply, without completed_in, a double this model leaves out. */
  datatype SearchReply = SearchReply(query: string, refreshUrl: string, maxId: int, sinceId: int,
                                     resultsPerPage: int, page: int, results: seq<Tweet>,
                                     nextPage: Option<string>)

  /** profile_image_url_https when it is text, else profile_image_url when it is text. */
  function ProfileImage(j: Json): (r: Result<string, Exception>)
    ensures IsTextual(Path(j, "profile_image_url_https")) ==> r == Success(Path(j, "profile_image_url_https").json.s)
    ensures !IsTextual(Path(j, "profile_image_url_https")) && IsTextual(Path(j, "profile_image_url")) ==>
              r == Success(Path(j, "profile_image_url").json.s)
    ensures r.Failure? <==> !IsTextual(Path(j, "profile_image_url_https")) && !IsTextual(Path(j, "profile_image_url"))
    ensures r.Failure? ==> r.error == JsonDeserializer
  {
    var node := Path(j, "profile_image_url_https");
    if IsTextual(node) then Success(node.json.s)
    else
      var fallback := Path(j, "profile_image_url");
      if IsTextual(fallback) then Success(fallback.json.s) else Failure(JsonDeserializer)
  }

  /** parseSingleTweet: the checks in the source's order, then the optional fields. */
  function TweetOf(j: Json, parseDate: string -> Option<int>): (r: Result<Tweet, Exception>)
    ensures r.Failure? ==> r.error == JsonDeserializer
  {
    if !j.JObject? then Failure(JsonDeserializer)
    else
      var createdAt := Path(j, "created_at");
      if !IsTextual(createdAt) then Failure(JsonDeserializer)
      else if parseDate(createdAt.json.s).None? then Failure(JsonDeserializer)
      else
        var fromUser := Path(j, "from_user");
        if !IsTextual(fromUser) then Failure(JsonDeserializer)
        else
          var fromUserId := Path(j, "from_user_id");
          if !CanConvertToLong(fromUserId) then Failure(JsonDeserializer)
          else
            var id := Path(j, "id");
            if !CanConvertToLong(id) then Failure(JsonDeserializer)
            else
              var image := ProfileImage(j);
              if image.Failure? then Failure(image.error)
              else
                var text := Path(j, "text");
                if !IsTextual(text) then Failure(JsonDeserializer)
                else
                  Success(Tweet(parseDate(createdAt.json.s).value, fromUser.json.s, AsLong(fromUserId),
                                TextValue(Path(j, "from_user_name")), TextValue(Path(j, "location")),
                                AsLong(id), image.value, text.json.s))
  }

  /** What a tweet must look like, without the order of the checks. */
  predicate WellFormedTweet(j: Json, parseDate: string -> Option<int>)
  {
    j.JObject? && IsTextual(Path(j, "created_at")) && parseDate(Path(j, "created_at").json.s).Some?
    && IsTextual(Path(j, "from_user")) && CanConvertToLong(Path(j, "from_user_id"))
    && CanConvertToLong(Path(j, "id"))
    && (IsTextual(Path(j, "profile_image_url_https")) || IsTextual(Path(j, "profile_image_url")))
    && IsTextual(Path(j, "text"))
  }

  /** parseSingleTweet accepts exactly the well-formed tweets; the optional fields are null unless text. */
  lemma TweetAccepts(j: Json, parseDate: string -> Option<int>)
    ensures TweetOf(j, parseDate).Success? <==> WellFormedTweet(j, parseDate)
    ensures TweetOf(j, parseDate).Success? ==>
              var t := TweetOf(j, parseDate).value;
              (t.fromUserName.Some? <==> IsTextual(Path(j, "from_user_name")))
              && (t.location.Some? <==> IsTextual(Path(j, "location")))
              && IsLong(t.id) && IsLong(t.fromUserId)
  {
  }

  /** The loop over "results": every tweet in order, the first bad one failing the read. */
  function TweetsOf(items: seq<Json>, parseDate: string -> Option<int>): (r: Result<seq<Tweet>, Exception>)
    ensures r.Failure? ==> r.error == JsonDeserializer
  {
    if |items| == 0 then Success([])
    else
      var before := TweetsOf(items[..|items| - 1], parseDate);
      if before.Failure? then before
      else
        var t := TweetOf(items[|items| - 1], parseDate);
        if t.Failure? then Failure(t.error) else Success(before.value + [t.value])
  }

  /** The read of the results succeeds exactly when every one of them parses. */
  lemma {:induction false} TweetsAllParse(items: seq<Json>, parseDate: string -> Option<int>)
    ensures TweetsOf(items, parseDate).Success? <==> forall k :: 0 <= k < |items| ==> TweetOf(items[k], parseDate).Success?
  {
    if |items| > 0 {
      var init := items[..|items| - 1];
      TweetsAllParse(init, parseDate);
      assert forall k :: 0 <= k < |init| ==> init[k] == items[k];
    }
  }

  /** The tweets read keep the order of the array, one per element. */
  lemma {:induction false} TweetsInOrder(items: seq<Json>, parseDate: string -> Option<int>)
    requires TweetsOf(items, parseDate).Success?
    ensures |TweetsOf(items, parseDate).value| == |items|
    ensures forall k :: 0 <= k < |items| ==>
              TweetOf(items[k], parseDate).Success? && TweetsOf(items, parseDate).value[k] == TweetOf(items[k], parseDate).value
  {
    if |items| > 0 {
      var init := items[..|items| - 1];
      TweetsInOrder(init, parseDate);
      assert forall k :: 0 <= k < |init| ==> init[k] == items[k];
    }
  }

  /** The top-level metadata a reply must carry before any tweet is read. */
  predicate GoodMetadata(root: Json)
  {
    root.JObject? && IsArrayNode(Path(root, "results"))
    && IsTextual(Path(root, "query")) && IsTextual(Path(root, "refresh_url"))
    && CanConvertToLong(Path(root, "max_id")) && CanConvertToLong(Path(root, "since_id"))
    && IsIntNode(Path(root, "results_per_page")) && IsIntNode(Path(root, "page"))
  }

  /** The metadata of a reply whose checks passed, before its tweets are read. */
  function Metadata(root: Json): SearchReply
    requires GoodMetadata(root)
  {
    SearchReply(Path(root, "query").json.s, Path(root, "refresh_url").json.s,
                AsLong(Path(root, "max_id")), AsLong(Path(root, "since_id")),
                Path(root, "results_per_page").json.n, Path(root, "page").json.n, [], None)
  }

  /** fromInputStream over readTree's result (None for its IOException). */
  function ReplyFromTree(tree: Option<Json>, parseDate: string -> Option<int>): (r: Result<SearchReply, Exception>)
    ensures r.Failure? ==> r.error == JsonDeserializer
    ensures r.Success? <==> tree.Some? && GoodMetadata(tree.value) && TweetsOf(Path(tree.value, "results").json.items, parseDate).Success?
  {
    if tree.None? || !GoodMetadata(tree.value) then Failure(JsonDeserializer)
    else
      var root := tree.value;
      var tweets := TweetsOf(Path(root, "results").json.items, parseDate);
      if tweets.Failure? then Failure(tweets.error)
      else Success(Metadata(root).(results := tweets.value, nextPage := TextValue(Path(root, "next_page"))))
  }

  /** A read that succeeds carries the root's metadata and one tweet per result, in order. */
  lemma ReplyContents(tree: Option<Json>, parseDate: string -> Option<int>)
    requires ReplyFromTree(tree, parseDate).Success?
    ensures var reply := ReplyFromTree(tree, parseDate).value;
            var items := Path(tree.value, "results").json.items;
            reply.query == Path(tree.value, "query").json.s
            && IsLong(reply.maxId) && IsLong(reply.sinceId) && IsInt(reply.resultsPerPage) && IsInt(reply.page)
            && |reply.results| == |items|
            && (forall k :: 0 <= k < |items| ==> TweetOf(items[k], parseDate).Success? && reply.results[k] == TweetOf(items[k], parseDate).value)
            && (reply.nextPage.Some? <==> IsTextual(Path(tree.value, "next_page")))
  {
    TweetsInOrder(Path(tree.value, "results").json.items, parseDate);
  }

  /**
   * fromInputStream: the metadata checks and setters, then the loop over
   * "results" appending each parsed tweet, then next_page.
   */
  method FromInputStream(tree: Option<Json>, parseDate: string -> Option<int>) returns (r: Result<SearchReply, Exception>)
    ensures r == ReplyFromTree(tree, parseDate)
  {
    if tree.None? || !tree.value.JObject? {
      return Failure(JsonDeserializer);
    }
    var root := tree.value;
    var resultsArray := Path(root, "results");
    if !IsArrayNode(resultsArray) { return Failure(JsonDeserializer); }
    var node := Path(root, "query");
    if !IsTextual(node) { return Failure(JsonDeserializer); }
    var reply := SearchReply(node.json.s, "", 0, 0, 0, 0, [], None);
    node := Path(root, "refresh_url");
    if !IsTextual(node) { return Failure(JsonDeserializer); }
    reply := reply.(refreshUrl := node.json.s);
    node := Path(root, "max_id");
    if !CanConvertToLong(node) { return Failure(JsonDeserializer); }
    reply := reply.(maxId := AsLong(node));
    node := Path(root, "since_id");
    if !CanConvertToLong(node) { return Failure(JsonDeserializer); }
    reply := reply.(sinceId := AsLong(node));
    node := Path(root, "results_per_page");
    if !IsIntNode(node) { return Failure(JsonDeserializer); }
    reply := reply.(resultsPerPage := node.json.n);
    node := Path(root, "page");
    if !IsIntNode(node) { return Failure(JsonDeserializer); }
    reply := reply.(page := node.json.n);
    assert reply == Metadata(root);

    var items := resultsArray.json.items;
    var tweets: seq<Tweet> := [];
    var i := 0;
    while i < |items|
      invariant 0 <= i <= |items|
      invariant TweetsOf(items[..i], parseDate) == Success(tweets)
    {
      assert items[..i + 1][..i] == items[..i];
      var t := TweetOf(items[i], parseDate);
      if t.Failure? {
        TweetsFailureSticks(items, i + 1, parseDate);
        return Failure(t.error);
      }
      tweets := tweets + [t.value];
      i := i + 1;
    }
    assert items[..i] == items;
    reply := reply.(results := tweets);
    reply := reply.(nextPage := TextValue(Path(root, "next_page")));
    return Success(reply);
  }

  /** Once a prefix of the results fails, the whole array fails the same way. */
  lemma {:induction false} TweetsFailureSticks(items: seq<Json>, n: int, parseDate: string -> Option<int>)
    requires 0 <= n <= |items| && TweetsOf(items[..n], parseDate).Failure?
    ensures TweetsOf(items, parseDate) == TweetsOf(items[..n], parseDate)
  {
    if n < |items| {
      var m := |items| - 1;
      assert items[..m][..n] == items[..n];
      TweetsFailureSticks(items[..m], n, parseDate);
    } else {
      assert items[..n] == items;
    }
  }
}
