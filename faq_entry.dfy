/**
 * model/FaqEntry.java: an immutable FAQ entry with value equality and the
 * conventional 17/31 hash over its four fields.  The string fields are
 * never null here: the only producer, the FAQ deserializer, fills every
 * one of them from text nodes.
 */
module FaqEntries {
  import opened JavaLang

  datatype FaqEntry = FaqEntry(id: int, category: string, question: string, answer: string)

  /** No two entries of a list share an id. */
  predicate DistinctIds(entries: seq<FaqEntry>)
  {
    forall i, j :: 0 <= i < j < |entries| ==> entries[i].id != entries[j].id
  }

  /** The argument of equals(Object): null, a FaqEntry, or an object of another class. */
  datatype Obj = Null | Entry(entry: FaqEntry) | Other

  /**
   * equals: identity first (which for a value is equality), then false for
   * anything that is not a FaqEntry, then the four fields.
   */
  function Equals(self: FaqEntry, o: Obj): (r: bool)
    ensures r <==> o.Entry? && o.entry == self
    ensures r ==> HashCode(self) == HashCode(o.entry)
  {
    if o.Entry? && o.entry == self then true
    else if !o.Entry? then false
    else
      var other := o.entry;
      self.id == other.id && self.category == other.category
      && self.question == other.question && self.answer == other.answer
  }

  /** One step `result = 31 * result + h` of the hash, in int arithmetic. */
  function HashStep(result: int, h: int): (r: int)
    ensures IsInt(r)
  {
    WrapInt(31 * result + h)
  }

  /** hashCode: Integer.valueOf(id).hashCode() is the id itself. */
  function HashCode(e: FaqEntry): (h: int)
    ensures IsInt(h)
  {
    var result := 17;
    var result := HashStep(result, e.id);
    var result := HashStep(result, StringHash(e.category));
    var result := HashStep(result, StringHash(e.question));
    HashStep(result, StringHash(e.answer))
  }

  /** equals is reflexive, and symmetric between entries. */
  lemma EqualsReflexiveSymmetric(a: FaqEntry, b: FaqEntry)
    ensures Equals(a, Entry(a))
    ensures Equals(a, Entry(b)) <==> Equals(b, Entry(a))
  {
  }

  /** equals is transitive. */
  lemma EqualsTransitive(a: FaqEntry, b: FaqEntry, c: FaqEntry)
    requires Equals(a, Entry(b)) && Equals(b, Entry(c))
    ensures Equals(a, Entry(c))
  {
  }

  /** Wrapping before a further 31 * x + h step does not change the step's result. */
  lemma StepOfWrapped(x: int, h: int)
    ensures HashStep(WrapInt(x), h) == WrapInt(31 * x + h)
  {
    var w := WrapInt(x);
    var k := (x - w) / TWO_32;
    assert x - w == k * TWO_32;
    assert (31 * x + h) - (31 * w + h) == (31 * k) * TWO_32;
    ModuloShift(0, 31 * k);
    WrapIntCongruent(31 * x + h, 31 * w + h);
  }

  /**
   * The hash is the exact polynomial 17·31^4 + id·31^3 + hc·31^2 + hq·31 + ha
   * over the field hashes, wrapped once to 32 bits.
   */
  lemma HashClosedForm(e: FaqEntry)
    ensures HashCode(e) == WrapInt(17 * 923521 + e.id * 29791 + StringHash(e.category) * 961
                                   + StringHash(e.question) * 31 + StringHash(e.answer))
  {
    var c, q, a := StringHash(e.category), StringHash(e.question), StringHash(e.answer);
    var p1 := 31 * 17 + e.id;
    var p2 := 31 * p1 + c;
    var p3 := 31 * p2 + q;
    assert HashStep(17, e.id) == WrapInt(p1);
    StepOfWrapped(p1, c);
    StepOfWrapped(p2, q);
    StepOfWrapped(p3, a);
    assert 31 * p3 + a == 17 * 923521 + e.id * 29791 + c * 961 + q * 31 + a;
  }
}
