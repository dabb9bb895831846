/**
 * json/ScheduleDeserializer.java: the schedule document, a JSON array of
 * session objects, read into a map from session id to Session.  Each
 * session's fields are checked in a fixed order and handed to the
 * validating Session setters; a setter's IllegalArgumentException becomes
 * a JsonDeserializerException, while a start or end time that
 * Time.parse3339 cannot read escapes as its TimeFormatException.
 * Time.parse3339 followed by toMillis is the parameter `parse3339`: the
 * milliseconds, or None where it throws.
 */
module ScheduleJson {
  import opened JavaLang
  import opened Json
  import opened Sessions

  // ---------------------------------------------------------------------
  // Hosts
  // ---------------------------------------------------------------------

  /** A host entry the deserializer accepts: a non-empty text node. */
  predicate ValidHost(h: Json)
  {
    h.JString? && h.s != ""
  }

  /** The texts of a sequence of text nodes, in order. */
  function Texts(items: seq<Json>): (t: seq<string>)
    requires forall k :: 0 <= k < |items| ==> items[k].JString?
    ensures |t| == |items|
    ensures forall k :: 0 <= k < |items| ==> t[k] == items[k].s
  {
    if |items| == 0 then [] else [items[0].s] + Texts(items[1..])
  }

  /** The host names of a "hosts" array: all of them when every one is valid, else an error. */
  function HostsOf(items: seq<Json>): (r: Result<seq<string>, Exception>)
    ensures r.Success? <==> forall k :: 0 <= k < |items| ==> ValidHost(items[k])
    ensures r.Failure? ==> r.error == JsonDeserializer
    ensures r.Success? ==> |r.value| == |items| && forall k :: 0 <= k < |items| ==> r.value[k] == items[k].s && r.value[k] != ""
  {
    if forall k :: 0 <= k < |items| ==> ValidHost(items[k]) then Success(Texts(items))
    else Failure(JsonDeserializer)
  }

  /** The loop over the "hosts" array, stopping at the first invalid entry. */
  method CollectHosts(items: seq<Json>) returns (r: Result<seq<string>, Exception>)
    ensures r == HostsOf(items)
  {
    var hosts: seq<string> := [];
    var i := 0;
    while i < |items|
      invariant 0 <= i <= |items|
      invariant forall k :: 0 <= k < i ==> ValidHost(items[k])
      invariant |hosts| == i && forall k :: 0 <= k < i ==> hosts[k] == items[k].s
    {
      var h := items[i];
      if !h.JString? || h.s == "" {
        return Failure(JsonDeserializer);
      }
      hosts := hosts + [h.s];
      i := i + 1;
    }
    assert hosts == Texts(items);
    return Success(hosts);
  }

  /** TextUtils.join(sep, parts): the parts in order with sep between neighbours. */
  function Join(sep: string, parts: seq<string>): string
  {
    if |parts| == 0 then ""
    else if |parts| == 1 then parts[0]
    else parts[0] + sep + Join(sep, parts[1..])
  }

  /** Joining non-empty host names gives the empty string exactly when there are none. */
  lemma {:induction false} JoinEmpty(sep: string, parts: seq<string>)
    requires forall k :: 0 <= k < |parts| ==> parts[k] != ""
    ensures Join(sep, parts) == "" <==> |parts| == 0
  {
    if |parts| > 1 {
      assert |Join(sep, parts)| >= |parts[0]| > 0;
    }
  }

  /** Joining keeps every part, in order: the first part opens the result. */
  lemma JoinStartsWithFirst(sep: string, parts: seq<string>)
    requires |parts| > 0
    ensures Join(sep, parts)[..|parts[0]|] == parts[0]
  {
    if |parts| > 1 {
      assert Join(sep, parts) == parts[0] + (sep + Join(sep, parts[1..]));
    }
  }

  // ---------------------------------------------------------------------
  // One session
  // ---------------------------------------------------------------------

  /** A required text member: absent or not text is a JsonDeserializerException. */
  function TextField(obj: Json, name: string): (r: Result<string, Exception>)
    ensures r.Success? <==> IsTextual(Path(obj, name))
    ensures r.Success? ==> Some(r.value) == TextValue(Path(obj, name))
    ensures r.Failure? ==> r.error == JsonDeserializer
  {
    var node := Path(obj, name);
    if !IsTextual(node) then Failure(JsonDeserializer) else Success(node.json.s)
  }

  /** A required time: text first, then Time.parse3339, whose failure escapes as TimeFormatException. */
  function TimeField(obj: Json, name: string, parse3339: string -> Option<int>): (r: Result<int, Exception>)
    ensures r.Success? <==> IsTextual(Path(obj, name)) && parse3339(Path(obj, name).json.s).Some?
    ensures r.Success? ==> r.value == parse3339(Path(obj, name).json.s).value
    ensures r.Failure? ==> (r.error == TimeFormat <==> IsTextual(Path(obj, name)))
    ensures r.Failure? ==> r.error == JsonDeserializer || r.error == TimeFormat
  {
    var text := TextField(obj, name);
    if text.Failure? then Failure(text.error)
    else
      var t := parse3339(text.value);
      if t.None? then Failure(TimeFormat) else Success(t.value)
  }

  /**
   * An IllegalArgumentException a setter throws becomes a
   * JsonDeserializerException; anything else is not caught.
   */
  function Wrapped(e: Exception): (w: Exception)
    ensures e == IllegalArgument ==> w == JsonDeserializer
    ensures e != IllegalArgument ==> w == e
  {
    if e == IllegalArgument then JsonDeserializer else e
  }

  /** The session parseSession builds, or the exception it throws, for one array element. */
  function SessionFromJson(j: Json, parse3339: string -> Option<int>): (r: Result<Fields, Exception>)
    ensures r.Success? ==> Validated(r.value)
    ensures r.Failure? ==> r.error == JsonDeserializer || r.error == TimeFormat
  {
    if !j.JObject? then Failure(JsonDeserializer)
    else
      var id := TextField(j, "id");
      if id.Failure? then Failure(id.error)
      else if id.value == "" then Failure(JsonDeserializer)
      else
        var title := TextField(j, "title");
        if title.Failure? then Failure(title.error)
        else if title.value == "" then Failure(JsonDeserializer)
        else
          var day := Path(j, "day");
          if !IsIntNode(day) then Failure(JsonDeserializer)
          else if !(1 <= day.json.n <= 3) then Failure(JsonDeserializer)
          else
            var start := TimeField(j, "start", parse3339);
            if start.Failure? then Failure(start.error)
            else
              var end := TimeField(j, "end", parse3339);
              if end.Failure? then Failure(end.error)
              else
                var hostsNode := Path(j, "hosts");
                if !IsArrayNode(hostsNode) then Failure(JsonDeserializer)
                else
                  var hosts := HostsOf(hostsNode.json.items);
                  if hosts.Failure? then Failure(hosts.error)
                  else if Join(", ", hosts.value) == "" then Failure(JsonDeserializer)
                  else
                    var lang := TextField(j, "lang");
                    if lang.Failure? then Failure(lang.error)
                    else
                      var language := ParseLanguage(Some(lang.value));
                      if language.Failure? then Failure(Wrapped(language.error))
                      else
                        var abstractNode := Path(j, "abstract");
                        var sessionAbstract := if abstractNode.Missing? then None else TextValue(abstractNode);
                        Success(Fields(Some(id.value), Some(title.value), day.json.n, start.value, end.value,
                                       Some(Join(", ", hosts.value)), Some(language.value), sessionAbstract))
  }

  /** A member holding non-empty text. */
  predicate NonEmptyText(j: Json, name: string)
  {
    IsTextual(Path(j, name)) && Path(j, name).json.s != ""
  }

  /** A member holding text that Time.parse3339 reads. */
  predicate ParsableTime(j: Json, name: string, parse3339: string -> Option<int>)
  {
    IsTextual(Path(j, name)) && parse3339(Path(j, name).json.s).Some?
  }

  /** A "hosts" member: an array of at least one non-empty text. */
  predicate GoodHosts(j: Json)
  {
    IsArrayNode(Path(j, "hosts")) && |Path(j, "hosts").json.items| > 0
    && forall k :: 0 <= k < |Path(j, "hosts").json.items| ==> ValidHost(Path(j, "hosts").json.items[k])
  }

  /** A "lang" member: "it" or "en" in any letter case. */
  predicate GoodLang(j: Json)
  {
    IsTextual(Path(j, "lang")) && (ItSpelling(Path(j, "lang").json.s) || EnSpelling(Path(j, "lang").json.s))
  }

  /** What a session element must look like, stated without the order of the checks. */
  predicate WellFormedSession(j: Json, parse3339: string -> Option<int>)
  {
    j.JObject? && NonEmptyText(j, "id") && NonEmptyText(j, "title")
    && IsIntNode(Path(j, "day")) && 1 <= Path(j, "day").json.n <= 3
    && ParsableTime(j, "start", parse3339) && ParsableTime(j, "end", parse3339)
    && GoodHosts(j) && GoodLang(j)
  }

  /** parseSession accepts exactly the well-formed elements. */
  lemma SessionAccepts(j: Json, parse3339: string -> Option<int>)
    ensures SessionFromJson(j, parse3339).Success? <==> WellFormedSession(j, parse3339)
  {
    if j.JObject? && IsTextual(Path(j, "lang")) {
      ParseLanguageAccepts(Path(j, "lang").json.s);
    }
    if j.JObject? && IsArrayNode(Path(j, "hosts")) && HostsOf(Path(j, "hosts").json.items).Success? {
      JoinEmpty(", ", HostsOf(Path(j, "hosts").json.items).value);
    }
  }

  /** The session parseSession returns carries the element's own values. */
  lemma SessionContents(j: Json, parse3339: string -> Option<int>)
    requires SessionFromJson(j, parse3339).Success?
    ensures var f := SessionFromJson(j, parse3339).value;
            f.id == TextValue(Path(j, "id")) && f.title == TextValue(Path(j, "title"))
            && f.day == Path(j, "day").json.n
            && f.startTime == parse3339(Path(j, "start").json.s).value
            && f.endTime == parse3339(Path(j, "end").json.s).value
            && f.hosts == Some(Join(", ", Texts(Path(j, "hosts").json.items)))
            && f.lang == Some(ParseLanguage(TextValue(Path(j, "lang"))).value)
            && f.sessionAbstract == (if Path(j, "abstract").Missing? then None else TextValue(Path(j, "abstract")))
  {
  }

  /** A TimeFormatException comes only from a start or end that is text which does not parse. */
  lemma TimeFormatOnlyFromTimes(j: Json, parse3339: string -> Option<int>)
    requires SessionFromJson(j, parse3339) == Failure(TimeFormat)
    ensures (IsTextual(Path(j, "start")) && parse3339(Path(j, "start").json.s).None?)
            || (IsTextual(Path(j, "end")) && parse3339(Path(j, "end").json.s).None?)
  {
  }

  /**
   * parseSession: a fresh Session filled through its setters in the
   * source's order; what it returns is what SessionFromJson describes.
   */
  method ParseSession(objectRoot: Json, parse3339: string -> Option<int>) returns (r: Result<Session, Exception>)
    ensures var spec := SessionFromJson(objectRoot, parse3339);
            (r.Failure? <==> spec.Failure?) && (r.Failure? ==> r.error == spec.error)
    ensures r.Success? ==> fresh(r.value) && r.value.Snapshot() == SessionFromJson(objectRoot, parse3339).value
  {
    if !objectRoot.JObject? {
      return Failure(JsonDeserializer);
    }
    var result := new Session();
    var id := TextField(objectRoot, "id");
    if id.Failure? { return Failure(id.error); }
    var o := result.SetId(Some(id.value));
    if o.Fail? { return Failure(Wrapped(o.error)); }

    var title := TextField(objectRoot, "title");
    if title.Failure? { return Failure(title.error); }
    o := result.SetTitle(Some(title.value));
    if o.Fail? { return Failure(Wrapped(o.error)); }

    var day := Path(objectRoot, "day");
    if !IsIntNode(day) { return Failure(JsonDeserializer); }
    o := result.SetDay(day.json.n);
    if o.Fail? { return Failure(Wrapped(o.error)); }

    var start := TimeField(objectRoot, "start", parse3339);
    if start.Failure? { return Failure(start.error); }
    result.SetStartTime(start.value);

    var end := TimeField(objectRoot, "end", parse3339);
    if end.Failure? { return Failure(end.error); }
    result.SetEndTime(end.value);

    var hostsNode := Path(objectRoot, "hosts");
    if !IsArrayNode(hostsNode) { return Failure(JsonDeserializer); }
    var hosts := CollectHosts(hostsNode.json.items);
    if hosts.Failure? { return Failure(hosts.error); }
    o := result.SetHosts(Some(Join(", ", hosts.value)));
    if o.Fail? { return Failure(Wrapped(o.error)); }

    var lang := TextField(objectRoot, "lang");
    if lang.Failure? { return Failure(lang.error); }
    o := result.SetLang(Some(lang.value));
    if o.Fail? { return Failure(Wrapped(o.error)); }

    var abstractNode := Path(objectRoot, "abstract");
    if !abstractNode.Missing? {
      result.SetSessionAbstract(TextValue(abstractNode));
    }
    return Success(result);
  }

  // ---------------------------------------------------------------------
  // The whole document
  // ---------------------------------------------------------------------

  /** The map fromInputStream builds from the array's elements, in order; the first failure wins. */
  function ScheduleOf(items: seq<Json>, parse3339: string -> Option<int>): (r: Result<map<string, Fields>, Exception>)
  {
    if |items| == 0 then Success(map[])
    else
      var before := ScheduleOf(items[..|items| - 1], parse3339);
      if before.Failure? then before
      else
        var s := SessionFromJson(items[|items| - 1], parse3339);
        if s.Failure? then Failure(s.error)
        else Success(before.value[s.value.id.value := s.value])
  }

  /**
   * fromInputStream over the tree readTree produced; None stands for the
   * IOException readTree throws, which is wrapped.
   */
  function ScheduleFromTree(tree: Option<Json>, parse3339: string -> Option<int>): (r: Result<map<string, Fields>, Exception>)
    ensures tree.None? ==> r == Failure(JsonDeserializer)
    ensures tree.Some? && !tree.value.JArray? ==> r == Failure(JsonDeserializer)
  {
    if tree.None? || !tree.value.JArray? then Failure(JsonDeserializer)
    else ScheduleOf(tree.value.items, parse3339)
  }

  /** Every session in a parsed schedule is valid and filed under its own id. */
  lemma {:induction false} ScheduleKeyedById(items: seq<Json>, parse3339: string -> Option<int>)
    requires ScheduleOf(items, parse3339).Success?
    ensures var m := ScheduleOf(items, parse3339).value;
            forall k :: k in m ==> Validated(m[k]) && m[k].id == Some(k)
  {
    if |items| > 0 {
      ScheduleKeyedById(items[..|items| - 1], parse3339);
    }
  }

  /** The only exceptions fromInputStream lets out. */
  lemma {:induction false} ScheduleErrors(items: seq<Json>, parse3339: string -> Option<int>)
    requires ScheduleOf(items, parse3339).Failure?
    ensures ScheduleOf(items, parse3339).error == JsonDeserializer || ScheduleOf(items, parse3339).error == TimeFormat
  {
    if ScheduleOf(items[..|items| - 1], parse3339).Failure? {
      ScheduleErrors(items[..|items| - 1], parse3339);
    }
  }

  /** The first element that fails decides the outcome, whatever follows it. */
  lemma {:induction false} FirstFailureWins(items: seq<Json>, rest: seq<Json>, parse3339: string -> Option<int>)
    requires ScheduleOf(items, parse3339).Failure?
    ensures ScheduleOf(items + rest, parse3339) == ScheduleOf(items, parse3339)
  {
    if |rest| > 0 {
      var all := items + rest;
      var init := items + rest[..|rest| - 1];
      assert all[..|all| - 1] == init;
      FirstFailureWins(items, rest[..|rest| - 1], parse3339);
    } else {
      assert items + rest == items;
    }
  }

  /** A schedule that parses had every one of its elements parse. */
  lemma {:induction false} ScheduleEveryElement(items: seq<Json>, parse3339: string -> Option<int>, i: int)
    requires ScheduleOf(items, parse3339).Success?
    requires 0 <= i < |items|
    ensures SessionFromJson(items[i], parse3339).Success?
  {
    var init := items[..|items| - 1];
    if i < |items| - 1 {
      assert items[i] == init[i];
      ScheduleEveryElement(init, parse3339, i);
    }
  }

  /** The id of an element that parses. */
  function IdOf(j: Json, parse3339: string -> Option<int>): string
    requires SessionFromJson(j, parse3339).Success?
  {
    SessionFromJson(j, parse3339).value.id.value
  }

  /** Every element's id is a key of the parsed schedule. */
  lemma {:induction false} ElementIdIsKey(items: seq<Json>, parse3339: string -> Option<int>, i: int)
    requires ScheduleOf(items, parse3339).Success?
    requires 0 <= i < |items|
    ensures SessionFromJson(items[i], parse3339).Success?
    ensures IdOf(items[i], parse3339) in ScheduleOf(items, parse3339).value
  {
    ScheduleEveryElement(items, parse3339, i);
    var n := |items| - 1;
    var init := items[..n];
    var before := ScheduleOf(init, parse3339);
    var last := SessionFromJson(items[n], parse3339);
    assert before.Success? && last.Success?;
    assert ScheduleOf(items, parse3339).value == before.value[last.value.id.value := last.value];
    if i < n {
      assert items[i] == init[i];
      ElementIdIsKey(init, parse3339, i);
      assert IdOf(items[i], parse3339) in before.value;
    }
  }

  /** Every key of the parsed schedule is the id of some element. */
  lemma {:induction false} KeyIsSomeId(items: seq<Json>, parse3339: string -> Option<int>, key: string)
    requires ScheduleOf(items, parse3339).Success?
    requires key in ScheduleOf(items, parse3339).value
    ensures exists i :: 0 <= i < |items| && SessionFromJson(items[i], parse3339).Success? && IdOf(items[i], parse3339) == key
  {
    var n := |items| - 1;
    var init := items[..n];
    ScheduleEveryElement(items, parse3339, n);
    if key != IdOf(items[n], parse3339) {
      KeyIsSomeId(init, parse3339, key);
      var i :| 0 <= i < |init| && SessionFromJson(init[i], parse3339).Success? && IdOf(init[i], parse3339) == key;
      assert items[i] == init[i];
    }
  }

  /** The keys of a parsed schedule are exactly the ids of its elements. */
  lemma ScheduleKeys(items: seq<Json>, parse3339: string -> Option<int>, key: string)
    requires ScheduleOf(items, parse3339).Success?
    ensures key in ScheduleOf(items, parse3339).value <==>
            exists i :: 0 <= i < |items| && SessionFromJson(items[i], parse3339).Success? && IdOf(items[i], parse3339) == key
  {
    if key in ScheduleOf(items, parse3339).value {
      KeyIsSomeId(items, parse3339, key);
    }
    forall i | 0 <= i < |items| && SessionFromJson(items[i], parse3339).Success?
      ensures IdOf(items[i], parse3339) in ScheduleOf(items, parse3339).value
    {
      ElementIdIsKey(items, parse3339, i);
    }
  }

  /** No element after position i parses to a session with the same id. */
  predicate NoLaterSameId(items: seq<Json>, parse3339: string -> Option<int>, i: int)
    requires 0 <= i < |items| && SessionFromJson(items[i], parse3339).Success?
  {
    forall j :: i < j < |items| && SessionFromJson(items[j], parse3339).Success? ==>
      IdOf(items[j], parse3339) != IdOf(items[i], parse3339)
  }

  /** An element with no later element of the same id is the one its key maps to: later elements win. */
  lemma {:induction false} LaterElementWins(items: seq<Json>, parse3339: string -> Option<int>, i: int)
    requires ScheduleOf(items, parse3339).Success?
    requires 0 <= i < |items| && SessionFromJson(items[i], parse3339).Success?
    requires NoLaterSameId(items, parse3339, i)
    ensures var m := ScheduleOf(items, parse3339).value;
            IdOf(items[i], parse3339) in m && m[IdOf(items[i], parse3339)] == SessionFromJson(items[i], parse3339).value
  {
    var n := |items| - 1;
    var init := items[..n];
    if i < n {
      assert items[i] == init[i];
      forall j | i < j < |init| && SessionFromJson(init[j], parse3339).Success?
        ensures IdOf(init[j], parse3339) != IdOf(init[i], parse3339)
      {
        assert init[j] == items[j];
      }
      LaterElementWins(init, parse3339, i);
      ScheduleEveryElement(items, parse3339, n);
    }
  }

  /**
   * fromInputStream: the loop that parses each element in turn and puts
   * the session under its id.  On success the map holds fresh sessions
   * whose fields are those ScheduleFromTree describes.
   */
  method FromInputStream(tree: Option<Json>, parse3339: string -> Option<int>) returns (r: Result<map<string, Session>, Exception>)
    ensures var spec := ScheduleFromTree(tree, parse3339);
            (r.Failure? <==> spec.Failure?) && (r.Failure? ==> r.error == spec.error)
    ensures r.Success? ==>
              r.value.Keys == ScheduleFromTree(tree, parse3339).value.Keys
              && forall k :: k in r.value ==> fresh(r.value[k]) && r.value[k].Snapshot() == ScheduleFromTree(tree, parse3339).value[k]
  {
    if tree.None? || !tree.value.JArray? {
      return Failure(JsonDeserializer);
    }
    var items := tree.value.items;
    var result: map<string, Session> := map[];
    var i := 0;
    while i < |items|
      invariant 0 <= i <= |items|
      invariant ScheduleOf(items[..i], parse3339).Success?
      invariant result.Keys == ScheduleOf(items[..i], parse3339).value.Keys
      invariant forall k :: k in result ==> fresh(result[k]) && result[k].Snapshot() == ScheduleOf(items[..i], parse3339).value[k]
    {
      assert items[..i + 1][..i] == items[..i];
      var session := ParseSession(items[i], parse3339);
      if session.Failure? {
        FirstFailureWins(items[..i + 1], items[i + 1..], parse3339);
        assert items[..i + 1] + items[i + 1..] == items;
        return Failure(session.error);
      }
      result := result[session.value.id.value := session.value];
      i := i + 1;
    }
    assert items[..i] == items;
    return Success(result);
  }
}
