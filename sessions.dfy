/**
 * model/Session.java: a conference session whose setters validate before
 * they assign.  A rejected setter throws and leaves its field as it was.
 */
module Sessions {
  import opened JavaLang

  /** Session.Language. */
  datatype Language = IT | EN

  /** Language.toString(): the constant's name. */
  function LanguageName(l: Language): (s: string)
    ensures |s| == 2
  {
    match l
    case IT => "IT"
    case EN => "EN"
  }

  /** TextUtils.isEmpty: null or of length zero. */
  predicate IsEmpty(s: Option<string>)
  {
    s.None? || |s.value| == 0
  }

  /**
   * Character-wise String.toUpperCase(Locale.US) for the characters that
   * matter here: a-z become A-Z and the dotless i (U+0131) becomes I.
   */
  function UpperUS(c: char): char
  {
    if 'a' <= c <= 'z' then (c as int - 32) as char
    else if c == '\U{0131}' then 'I'
    else c
  }

  function ToUpperUS(s: string): (u: string)
    ensures |u| == |s|
    ensures forall i :: 0 <= i < |s| ==> u[i] == UpperUS(s[i])
  {
    if |s| == 0 then [] else [UpperUS(s[0])] + ToUpperUS(s[1..])
  }

  /**
   * Language.valueOf(lang.toUpperCase(Locale.US)): a null string throws
   * NullPointerException, a name that is not a constant
   * IllegalArgumentException.
   */
  function ParseLanguage(lang: Option<string>): (r: Result<Language, Exception>)
    ensures lang.None? ==> r == Failure(NullPointer)
    ensures lang.Some? && r.Failure? ==> r.error == IllegalArgument
  {
    if lang.None? then Failure(NullPointer)
    else
      var u := ToUpperUS(lang.value);
      if u == "IT" then Success(IT)
      else if u == "EN" then Success(EN)
      else Failure(IllegalArgument)
  }

  /** "it" in any letter case, where the dotless i also counts as an i. */
  predicate ItSpelling(s: string)
  {
    |s| == 2 && (s[0] == 'i' || s[0] == 'I' || s[0] == '\U{0131}') && (s[1] == 't' || s[1] == 'T')
  }

  /** "en" in any letter case. */
  predicate EnSpelling(s: string)
  {
    |s| == 2 && (s[0] == 'e' || s[0] == 'E') && (s[1] == 'n' || s[1] == 'N')
  }

  lemma UpperLetter(c: char)
    ensures UpperUS(c) == 'I' <==> c == 'i' || c == 'I' || c == '\U{0131}'
    ensures UpperUS(c) == 'T' <==> c == 't' || c == 'T'
    ensures UpperUS(c) == 'E' <==> c == 'e' || c == 'E'
    ensures UpperUS(c) == 'N' <==> c == 'n' || c == 'N'
  {
  }

  /** setLang(String) accepts exactly the case variants of "it" and "en". */
  lemma ParseLanguageAccepts(s: string)
    ensures ParseLanguage(Some(s)) == Success(IT) <==> ItSpelling(s)
    ensures ParseLanguage(Some(s)) == Success(EN) <==> EnSpelling(s)
    ensures ParseLanguage(Some(s)) == Failure(IllegalArgument) <==> !ItSpelling(s) && !EnSpelling(s)
  {
    var u := ToUpperUS(s);
    if |s| == 2 {
      UpperLetter(s[0]);
      UpperLetter(s[1]);
      assert u == "IT" <==> u[0] == 'I' && u[1] == 'T';
      assert u == "EN" <==> u[0] == 'E' && u[1] == 'N';
    } else {
      assert |u| != 2;
      assert u != "IT" && u != "EN";
    }
  }

  /** The name Language.toString writes is read back by setLang(String). */
  lemma LanguageRoundTrip(l: Language)
    ensures ParseLanguage(Some(LanguageName(l))) == Success(l)
  {
    ParseLanguageAccepts(LanguageName(l));
  }

  /** A snapshot of a session's eight fields. */
  datatype Fields = Fields(id: Option<string>, title: Option<string>, day: int,
                           startTime: int, endTime: int, hosts: Option<string>,
                           lang: Option<Language>, sessionAbstract: Option<string>)

  /** What the validators demand of the fields; start, end and abstract are unchecked. */
  predicate Validated(f: Fields)
  {
    !IsEmpty(f.id) && !IsEmpty(f.title) && 1 <= f.day <= 3 && !IsEmpty(f.hosts) && f.lang.Some?
  }

  /**
   * The first exception the full constructor's setters throw, in their
   * order id, title, day, (start, end), hosts, lang, (abstract); None when
   * every one of them accepts.
   */
  function FirstRejection(id: Option<string>, title: Option<string>, day: int,
                          hosts: Option<string>, lang: Option<string>): (e: Option<Exception>)
    ensures e.None? <==> !IsEmpty(id) && !IsEmpty(title) && 1 <= day <= 3 && !IsEmpty(hosts)
                         && ParseLanguage(lang).Success?
    ensures e == Some(NullPointer) <==> !IsEmpty(id) && !IsEmpty(title) && 1 <= day <= 3 && !IsEmpty(hosts)
                                        && lang.None?
    ensures e.Some? ==> e.value == NullPointer || e.value == IllegalArgument
  {
    if IsEmpty(id) || IsEmpty(title) || !(1 <= day <= 3) || IsEmpty(hosts) then Some(IllegalArgument)
    else if ParseLanguage(lang).Failure? then Some(ParseLanguage(lang).error)
    else None
  }

  class Session {
    var id: Option<string>
    var title: Option<string>
    var day: int
    var startTime: int
    var endTime: int
    var hosts: Option<string>
    var lang: Option<Language>
    var sessionAbstract: Option<string>

    function Snapshot(): Fields
      reads this
    {
      Fields(id, title, day, startTime, endTime, hosts, lang, sessionAbstract)
    }

    /** Every validator holds of the current fields. */
    predicate Valid()
      reads this
    {
      Validated(Snapshot())
    }

    /** Session(): an empty session, every reference null and every number 0. */
    constructor()
      ensures Snapshot() == Fields(None, None, 0, 0, 0, None, None, None)
    {
      id := None;
      title := None;
      day := 0;
      startTime := 0;
      endTime := 0;
      hosts := None;
      lang := None;
      sessionAbstract := None;
    }

    /** setId: null or empty throws IllegalArgumentException. */
    method SetId(id: Option<string>) returns (r: Outcome<Exception>)
      modifies this
      ensures IsEmpty(id) ==> r == Fail(IllegalArgument) && Snapshot() == old(Snapshot())
      ensures !IsEmpty(id) ==> r == Pass && Snapshot() == old(Snapshot()).(id := id)
      ensures old(Valid()) ==> Valid()
    {
      if IsEmpty(id) {
        return Fail(IllegalArgument);
      }
      this.id := id;
      return Pass;
    }

    /** setTitle: null or empty throws IllegalArgumentException. */
    method SetTitle(title: Option<string>) returns (r: Outcome<Exception>)
      modifies this
      ensures IsEmpty(title) ==> r == Fail(IllegalArgument) && Snapshot() == old(Snapshot())
      ensures !IsEmpty(title) ==> r == Pass && Snapshot() == old(Snapshot()).(title := title)
      ensures old(Valid()) ==> Valid()
    {
      if IsEmpty(title) {
        return Fail(IllegalArgument);
      }
      this.title := title;
      return Pass;
    }

    /** setDay: a day outside 1..3 throws IllegalArgumentException. */
    method SetDay(day: int) returns (r: Outcome<Exception>)
      modifies this
      ensures !(1 <= day <= 3) ==> r == Fail(IllegalArgument) && Snapshot() == old(Snapshot())
      ensures 1 <= day <= 3 ==> r == Pass && Snapshot() == old(Snapshot()).(day := day)
      ensures old(Valid()) ==> Valid()
    {
      if day < 1 || day > 3 {
        return Fail(IllegalArgument);
      }
      this.day := day;
      return Pass;
    }

    /** setStartTime: unchecked; nothing ties it to the end time. */
    method SetStartTime(startTime: int)
      modifies this
      ensures Snapshot() == old(Snapshot()).(startTime := startTime)
      ensures old(Valid()) ==> Valid()
    {
      this.startTime := startTime;
    }

    /** setEndTime: unchecked. */
    method SetEndTime(endTime: int)
      modifies this
      ensures Snapshot() == old(Snapshot()).(endTime := endTime)
      ensures old(Valid()) ==> Valid()
    {
      this.endTime := endTime;
    }

    /** setHosts: null or empty throws IllegalArgumentException. */
    method SetHosts(hosts: Option<string>) returns (r: Outcome<Exception>)
      modifies this
      ensures IsEmpty(hosts) ==> r == Fail(IllegalArgument) && Snapshot() == old(Snapshot())
      ensures !IsEmpty(hosts) ==> r == Pass && Snapshot() == old(Snapshot()).(hosts := hosts)
      ensures old(Valid()) ==> Valid()
    {
      if IsEmpty(hosts) {
        return Fail(IllegalArgument);
      }
      this.hosts := hosts;
      return Pass;
    }

    /** setLang(String): whatever Language.valueOf of the upper-cased name throws escapes. */
    method SetLang(lang: Option<string>) returns (r: Outcome<Exception>)
      modifies this
      ensures ParseLanguage(lang).Failure? ==> r == Fail(ParseLanguage(lang).error) && Snapshot() == old(Snapshot())
      ensures ParseLanguage(lang).Success? ==> r == Pass && Snapshot() == old(Snapshot()).(lang := Some(ParseLanguage(lang).value))
      ensures old(Valid()) ==> Valid()
    {
      var parsed := ParseLanguage(lang);
      if parsed.Failure? {
        return Fail(parsed.error);
      }
      this.lang := Some(parsed.value);
      return Pass;
    }

    /** setLang(Language): unchecked, so it may store null. */
    method SetLanguage(lang: Option<Language>)
      modifies this
      ensures Snapshot() == old(Snapshot()).(lang := lang)
    {
      this.lang := lang;
    }

    /** setSessionAbstract: unchecked, and null is allowed. */
    method SetSessionAbstract(sessionAbstract: Option<string>)
      modifies this
      ensures Snapshot() == old(Snapshot()).(sessionAbstract := sessionAbstract)
      ensures old(Valid()) ==> Valid()
    {
      this.sessionAbstract := sessionAbstract;
    }

    /**
     * The full constructor Session(id, title, day, startTime, endTime,
     * hosts, lang, sessionAbstract): the setters in that order, the first
     * rejection escaping.  A session it returns satisfies every validator.
     */
    static method Create(id: Option<string>, title: Option<string>, day: int, startTime: int, endTime: int,
                         hosts: Option<string>, lang: Option<string>, sessionAbstract: Option<string>)
      returns (r: Result<Session, Exception>)
      ensures var e := FirstRejection(id, title, day, hosts, lang);
              (e.Some? <==> r.Failure?) && (e.Some? ==> r.error == e.value)
      ensures r.Success? ==>
                fresh(r.value) && r.value.Valid()
                && r.value.Snapshot() == Fields(id, title, day, startTime, endTime, hosts,
                                                Some(ParseLanguage(lang).value), sessionAbstract)
    {
      var s := new Session();
      var o := s.SetId(id);
      if o.Fail? { return Failure(o.error); }
      o := s.SetTitle(title);
      if o.Fail? { return Failure(o.error); }
      o := s.SetDay(day);
      if o.Fail? { return Failure(o.error); }
      s.SetStartTime(startTime);
      s.SetEndTime(endTime);
      o := s.SetHosts(hosts);
      if o.Fail? { return Failure(o.error); }
      o := s.SetLang(lang);
      if o.Fail? { return Failure(o.error); }
      s.SetSessionAbstract(sessionAbstract);
      return Success(s);
    }
  }
}
