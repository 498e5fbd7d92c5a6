/**
 * The Person schema of models/person.js: the `number` validator (built on
 * JavaScript's `String.prototype.split` with a one-character separator), the
 * `name`/`number` field rules as Mongoose checks them, and the `toJSON`
 * transform applied to every document a handler sends back.
 */
module PersonSchema {
  import opened Wrappers

  /** A stored phonebook entry. */
  datatype Person = Person(name: string, number: string)

  // ---------------------------------------------------------------------------
  // String splitting, as `s.split(sep)` does for a one-character separator
  // ---------------------------------------------------------------------------

  /** Number of occurrences of `c` in `s`. */
  function Occurrences(s: string, c: char): nat
  {
    if s == [] then 0 else (if s[0] == c then 1 else 0) + Occurrences(s[1..], c)
  }

  /** Glue `parts` back together with `sep` between neighbours. */
  function Join(parts: seq<string>, sep: char): string
    requires |parts| >= 1
  {
    if |parts| == 1 then parts[0] else parts[0] + [sep] + Join(parts[1..], sep)
  }

  /**
   * `s.split(sep)`: the maximal separator-free pieces of `s`, so that an empty
   * string gives one empty part and every separator starts a new part.
   */
  function Split(s: string, sep: char): (parts: seq<string>)
    ensures |parts| == Occurrences(s, sep) + 1
    ensures forall i :: 0 <= i < |parts| ==> sep !in parts[i]
    ensures Join(parts, sep) == s
  {
    if s == [] then [[]]
    else
      var rest := Split(s[1..], sep);
      if s[0] == sep then
        assert ([[]] + rest)[1..] == rest;
        [[]] + rest
      else
        var parts := [[s[0]] + rest[0]] + rest[1..];
        assert parts[1..] == rest[1..];
        assert |rest| > 1 ==> Join(rest, sep) == rest[0] + [sep] + Join(rest[1..], sep);
        parts
  }

  lemma {:induction false} SplitWithoutSeparator(s: string, sep: char)
    requires sep !in s
    ensures Split(s, sep) == [s]
  {
    if s != [] {
      assert sep !in s[1..];
      SplitWithoutSeparator(s[1..], sep);
    }
  }

  /** Splitting `a + [sep] + b` where neither side holds `sep` gives exactly `[a, b]`. */
  lemma {:induction false} SplitAroundOneSeparator(a: string, b: string, sep: char)
    requires sep !in a && sep !in b
    ensures Split(a + [sep] + b, sep) == [a, b]
  {
    var s := a + [sep] + b;
    if a == [] {
      assert s[1..] == b;
      SplitWithoutSeparator(b, sep);
    } else {
      assert s[1..] == a[1..] + [sep] + b;
      assert sep !in a[1..];
      SplitAroundOneSeparator(a[1..], b, sep);
      assert [s[0]] + a[1..] == a;
    }
  }

  // ---------------------------------------------------------------------------
  // JavaScript's `length`: UTF-16 code units
  // ---------------------------------------------------------------------------

  /** How many UTF-16 code units `c` takes: two for a character outside the Basic Multilingual Plane. */
  function Utf16Width(c: char): nat
  {
    if c as int >= 0x10000 then 2 else 1
  }

  /** `s.length` in JavaScript: the number of UTF-16 code units of `s`. */
  function JsLength(s: string): (n: nat)
    ensures |s| <= n <= 2 * |s|
  {
    if s == [] then 0 else Utf16Width(s[0]) + JsLength(s[1..])
  }

  lemma {:induction false} JsLengthAppend(a: string, b: string)
    ensures JsLength(a + b) == JsLength(a) + JsLength(b)
  {
    if a == [] {
      assert a + b == b;
    } else {
      assert (a + b)[0] == a[0] && (a + b)[1..] == a[1..] + b;
      JsLengthAppend(a[1..], b);
    }
  }

  /** For text inside the Basic Multilingual Plane, `length` is the number of characters. */
  lemma {:induction false} JsLengthBmp(s: string)
    requires forall i :: 0 <= i < |s| ==> s[i] as int < 0x10000
    ensures JsLength(s) == |s|
  {
    if s != [] {
      assert forall i :: 0 <= i < |s[1..]| ==> s[1..][i] == s[i + 1];
      JsLengthBmp(s[1..]);
    }
  }

  /** Strings whose characters take the same number of code units, position by position, are equally long. */
  lemma {:induction false} SameWidthsSameLength(a: string, b: string)
    requires |a| == |b|
    requires forall i :: 0 <= i < |a| ==> Utf16Width(a[i]) == Utf16Width(b[i])
    ensures JsLength(a) == JsLength(b)
  {
    if a != [] {
      assert forall i :: 0 <= i < |a[1..]| ==> a[1..][i] == a[i + 1] && b[1..][i] == b[i + 1];
      SameWidthsSameLength(a[1..], b[1..]);
    }
  }

  // ---------------------------------------------------------------------------
  // The `number` validator (models/person.js:26-45)
  // ---------------------------------------------------------------------------

  /**
   * The custom validator on `number`, branch for branch: split on '-', demand
   * exactly two parts, the first 2 to 3 code units long, the second 7 to 8.
   */
  function ValidNumber(v: string): (ok: bool)
    ensures ok ==> Occurrences(v, '-') == 1
    ensures ok ==> 10 <= JsLength(v) <= 12
  {
    var parts := Split(v, '-');
    if |parts| != 2 then false
    else
      var firstPart := parts[0];
      var secondPart := parts[1];
      assert Join(parts, '-') == firstPart + ['-'] + secondPart;
      JsLengthAppend(firstPart + ['-'], secondPart);
      JsLengthAppend(firstPart, ['-']);
      if JsLength(firstPart) < 2 || JsLength(firstPart) > 3 then false
      else if JsLength(secondPart) < 7 || JsLength(secondPart) > 8 then false
      else true
  }

  /** `v` holds a hyphen at index k and nowhere else. */
  predicate OnlyHyphenAt(v: string, k: int)
  {
    forall i :: 0 <= i < |v| ==> (v[i] == '-' <==> i == k)
  }

  /**
   * The shape the validator accepts, written directly on positions: one hyphen
   * at index k and no other, with 2 to 3 code units before it and 7 to 8 after
   * it. Any character other than '-' may stand anywhere else.
   */
  ghost predicate HyphenatedShape(v: string)
  {
    exists k :: 0 <= k < |v| && OnlyHyphenAt(v, k) && 2 <= JsLength(v[..k]) <= 3 && 7 <= JsLength(v[k + 1..]) <= 8
  }

  /** A string with exactly one hyphen splits into the text before it and the text after it. */
  lemma OneHyphenSplits(v: string)
    requires |Split(v, '-')| == 2
    ensures var parts := Split(v, '-');
            && OnlyHyphenAt(v, |parts[0]|)
            && v[..|parts[0]|] == parts[0]
            && v[|parts[0]| + 1..] == parts[1]
  {
    var parts := Split(v, '-');
    var k := |parts[0]|;
    assert v == parts[0] + ['-'] + parts[1] by {
      assert Join(parts, '-') == parts[0] + ['-'] + parts[1];
    }
    forall i | 0 <= i < |v|
      ensures v[i] == '-' <==> i == k
    {
      if i < k {
        assert v[i] == parts[0][i];
      } else if i > k {
        assert v[i] == parts[1][i - k - 1];
      }
    }
  }

  /** A string of that shape splits into the parts around its hyphen, which the validator accepts. */
  lemma ShapeIsAccepted(v: string, k: int)
    requires 0 <= k < |v| && OnlyHyphenAt(v, k)
    requires 2 <= JsLength(v[..k]) <= 3 && 7 <= JsLength(v[k + 1..]) <= 8
    ensures ValidNumber(v)
  {
    var a, b := v[..k], v[k + 1..];
    assert v == a + ['-'] + b;
    assert forall j :: 0 <= j < |a| ==> a[j] == v[j];
    assert forall j :: 0 <= j < |b| ==> b[j] == v[j + k + 1];
    SplitAroundOneSeparator(a, b, '-');
  }

  /** The validator accepts exactly the strings of that shape. */
  lemma ValidNumberIffShape(v: string)
    ensures ValidNumber(v) <==> HyphenatedShape(v)
  {
    if ValidNumber(v) {
      OneHyphenSplits(v);
      var k := |Split(v, '-')[0]|;
      assert OnlyHyphenAt(v, k);
    }
    if HyphenatedShape(v) {
      var k :| 0 <= k < |v| && OnlyHyphenAt(v, k) && 2 <= JsLength(v[..k]) <= 3 && 7 <= JsLength(v[k + 1..]) <= 8;
      ShapeIsAccepted(v, k);
    }
  }

  /** The shape at hyphen position k carries over to a string with the same hyphens and character widths. */
  lemma ShapeCarriesOver(v: string, w: string, k: int)
    requires |v| == |w|
    requires forall i :: 0 <= i < |v| ==> (v[i] == '-' <==> w[i] == '-')
    requires forall i :: 0 <= i < |v| ==> Utf16Width(v[i]) == Utf16Width(w[i])
    requires 0 <= k < |v| && OnlyHyphenAt(v, k)
    ensures OnlyHyphenAt(w, k)
    ensures JsLength(w[..k]) == JsLength(v[..k]) && JsLength(w[k + 1..]) == JsLength(v[k + 1..])
  {
    SameWidthsSameLength(v[..k], w[..k]);
    SameWidthsSameLength(v[k + 1..], w[k + 1..]);
  }

  /**
   * Acceptance depends only on where the hyphens are and how many code units
   * each character takes: whatever the other characters are, the verdict is
   * the same (letters pass as well as digits).
   */
  lemma VerdictDependsOnlyOnHyphens(v: string, w: string)
    requires |v| == |w|
    requires forall i :: 0 <= i < |v| ==> (v[i] == '-' <==> w[i] == '-')
    requires forall i :: 0 <= i < |v| ==> Utf16Width(v[i]) == Utf16Width(w[i])
    ensures ValidNumber(v) == ValidNumber(w)
  {
    ValidNumberIffShape(v);
    ValidNumberIffShape(w);
    if HyphenatedShape(v) {
      var k :| 0 <= k < |v| && OnlyHyphenAt(v, k) && 2 <= JsLength(v[..k]) <= 3 && 7 <= JsLength(v[k + 1..]) <= 8;
      ShapeCarriesOver(v, w, k);
    }
    if HyphenatedShape(w) {
      var k :| 0 <= k < |w| && OnlyHyphenAt(w, k) && 2 <= JsLength(w[..k]) <= 3 && 7 <= JsLength(w[k + 1..]) <= 8;
      ShapeCarriesOver(w, v, k);
    }
  }

  /** Two hyphen-free parts of the right lengths, joined by a hyphen, are accepted. */
  lemma PartsAccepted(a: string, b: string)
    requires '-' !in a && '-' !in b
    requires 2 <= JsLength(a) <= 3 && 7 <= JsLength(b) <= 8
    ensures ValidNumber(a + ['-'] + b)
  {
    SplitAroundOneSeparator(a, b, '-');
  }

  /** A number in the documented shape is accepted. */
  lemma AcceptsDigits()
    ensures ValidNumber("040" + "-" + "1234567")
  {
    PartsAccepted("040", "1234567");
  }

  /** Letters in place of digits are accepted too: no character other than '-' is inspected. */
  lemma AcceptsLetters()
    ensures ValidNumber("ab" + "-" + "cdefghi")
  {
    JsLengthBmp("ab");
    JsLengthBmp("cdefghi");
    PartsAccepted("ab", "cdefghi");
  }

  /** One character outside the Basic Multilingual Plane counts as two, so it makes a valid first part. */
  lemma AcceptsAstralFirstPart()
    ensures ValidNumber("\U{1F600}" + "-" + "1234567")
  {
    PartsAccepted("\U{1F600}", "1234567");
  }

  /** Too short overall: no hyphen at all, or a second part of six characters. */
  lemma RejectsShortNumbers()
    ensures !ValidNumber("123456")
    ensures !ValidNumber("12" + "-" + "123456")
  {
    SplitAroundOneSeparator("12", "123456", '-');
  }

  /** Two hyphens make three parts, so the validator rejects. */
  lemma RejectsTwoHyphens()
    ensures !ValidNumber("39-44-5323523")
  {
    var v := "39-44-5323523";
    ValidNumberIffShape(v);
    assert v[2] == '-' && v[5] == '-';
  }

  /** A first part of one character is rejected. */
  lemma RejectsOneCharFirstPart()
    ensures !ValidNumber("1" + "-" + "12345678")
  {
    SplitAroundOneSeparator("1", "12345678", '-');
  }

  /** A first part of four characters is rejected. */
  lemma RejectsFourCharFirstPart()
    ensures !ValidNumber("1234" + "-" + "1234567")
  {
    SplitAroundOneSeparator("1234", "1234567", '-');
  }

  // ---------------------------------------------------------------------------
  // Field rules (models/person.js:15-25) as Mongoose checks them
  // ---------------------------------------------------------------------------

  const NameMinLength: nat := 3
  const NumberMinLength: nat := 8

  /** Which rule a path broke. */
  datatype Rule = Required | MinLength(min: nat) | Validator

  /** One failing path, with the value it had. */
  datatype Violation = Violation(path: string, value: string, rule: Rule)

  /**
   * Mongoose's `required` for a String path: the value must be a string of
   * length at least one, so both an absent value and "" fail it.
   */
  function Supplied(v: Option<string>): (ok: bool)
    ensures ok <==> v.Some? && JsLength(v.value) > 0
  {
    v.Some? && v.value != ""
  }

  /**
   * The first rule the `name` path breaks, in the order Mongoose runs them
   * (required, then minlength); None when it passes.
   */
  function NameViolation(name: Option<string>): (r: Option<Violation>)
    ensures r.None? <==> Supplied(name) && JsLength(name.value) >= NameMinLength
    ensures !Supplied(name) ==> r == Some(Violation("name", "", Required))
    ensures Supplied(name) && JsLength(name.value) < NameMinLength ==>
              r == Some(Violation("name", name.value, MinLength(NameMinLength)))
  {
    if !Supplied(name) then Some(Violation("name", "", Required))
    else if JsLength(name.value) < NameMinLength then Some(Violation("name", name.value, MinLength(NameMinLength)))
    else None
  }

  /**
   * The first rule the `number` path breaks: required, then minlength, then the
   * custom validator (which Mongoose never runs on an absent value).
   */
  function NumberViolation(number: Option<string>): (r: Option<Violation>)
    ensures r.None? <==> Supplied(number) && ValidNumber(number.value)
    ensures !Supplied(number) ==> r == Some(Violation("number", "", Required))
    ensures Supplied(number) && JsLength(number.value) < NumberMinLength ==>
              r == Some(Violation("number", number.value, MinLength(NumberMinLength)))
    ensures Supplied(number) && JsLength(number.value) >= NumberMinLength && !ValidNumber(number.value) ==>
              r == Some(Violation("number", number.value, Validator))
  {
    if !Supplied(number) then Some(Violation("number", "", Required))
    else if JsLength(number.value) < NumberMinLength then Some(Violation("number", number.value, MinLength(NumberMinLength)))
    else if !ValidNumber(number.value) then Some(Violation("number", number.value, Validator))
    else None
  }

  /** Two characters outside the Basic Multilingual Plane make a name of length 4, which `minlength: 3` accepts. */
  lemma AstralNameIsLongEnough()
    ensures NameViolation(Some("\U{1F600}\U{1F600}")) == None
  {
  }

  function OptionToSeq<T>(o: Option<T>): seq<T>
  {
    if o.Some? then [o.value] else []
  }

  /** All failing paths of a would-be document, `name` before `number`. */
  function Validate(name: Option<string>, number: Option<string>): (errors: seq<Violation>)
    ensures |errors| <= 2
    ensures errors == [] <==> Supplied(name) && JsLength(name.value) >= NameMinLength
                              && Supplied(number) && ValidNumber(number.value)
    ensures forall i :: 0 <= i < |errors| ==> errors[i].path in {"name", "number"}
    ensures NameViolation(name).Some? <==> |errors| > 0 && errors[0].path == "name"
    ensures NameViolation(name).Some? ==> errors[0] == NameViolation(name).value
    ensures NumberViolation(number).Some? <==> |errors| > 0 && errors[|errors| - 1].path == "number"
    ensures NumberViolation(number).Some? ==> errors[|errors| - 1] == NumberViolation(number).value
    ensures forall i, j :: 0 <= i < j < |errors| ==> errors[i].path != errors[j].path
  {
    OptionToSeq(NameViolation(name)) + OptionToSeq(NumberViolation(number))
  }

  /** A record every schema rule accepts. */
  predicate SchemaValid(p: Person)
  {
    Validate(Some(p.name), Some(p.number)) == []
  }

  /** The `minlength: 8` rule on `number` never rejects anything the validator accepts. */
  lemma NumberMinLengthImplied(number: string)
    requires ValidNumber(number)
    ensures NumberViolation(Some(number)) == None
    ensures JsLength(number) >= NumberMinLength
  {
  }

  // ---------------------------------------------------------------------------
  // The `toJSON` transform (models/person.js:50-56)
  // ---------------------------------------------------------------------------

  /** Values that occur in a person document. */
  datatype Value = Str(s: string) | ObjectIdValue(hex: string) | Num(n: int)

  /** A document as Mongoose hands it to `toJSON`: a fresh plain object. */
  type Document = map<string, Value>

  /** The plain object of a stored person: its `_id`, fields and version key. */
  function StoredDocument(id: string, p: Person): (doc: Document)
    ensures doc.Keys == {"_id", "name", "number", "__v"}
  {
    map["_id" := ObjectIdValue(id), "name" := Str(p.name), "number" := Str(p.number), "__v" := Num(0)]
  }

  /**
   * The transform: set `id` to the string form of `_id`, then delete `_id` and
   * `__v`. Every document Mongoose produces for this schema has an ObjectId `_id`.
   */
  function ToJson(doc: Document): (out: Document)
    requires "_id" in doc && doc["_id"].ObjectIdValue?
    ensures out.Keys == doc.Keys - {"_id", "__v"} + {"id"}
    ensures out["id"] == Str(doc["_id"].hex)
    ensures forall k :: k in out && k != "id" ==> out[k] == doc[k]
  {
    var withId := doc["id" := Str(doc["_id"].hex)];
    withId - {"_id", "__v"}
  }

  /** What a client sees for one stored person: exactly `id`, `name` and `number`. */
  lemma PersonToJson(id: string, p: Person)
    ensures ToJson(StoredDocument(id, p))
            == map["id" := Str(id), "name" := Str(p.name), "number" := Str(p.number)]
  {
    var out := ToJson(StoredDocument(id, p));
    var expected := map["id" := Str(id), "name" := Str(p.name), "number" := Str(p.number)];
    assert out.Keys == expected.Keys;
    assert out["name"] == expected["name"] && out["number"] == expected["number"];
  }
}
