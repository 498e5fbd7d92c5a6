/**
 * How Mongoose turns the `:id` route parameter into an ObjectId before a
 * `findById`, `findByIdAndRemove` or `findByIdAndUpdate` query: a string of 24
 * hexadecimal digits casts (to its lower-case form); anything else makes the
 * query fail with a CastError.
 */
module ObjectIds {
  import opened Wrappers

  /** The hex form of an ObjectId as stored: 24 lower-case hex digits. */
  type ObjectId = string

  predicate IsHexDigit(c: char)
  {
    '0' <= c <= '9' || 'a' <= c <= 'f' || 'A' <= c <= 'F'
  }

  predicate IsLowerHexDigit(c: char)
  {
    '0' <= c <= '9' || 'a' <= c <= 'f'
  }

  predicate IsHexId(s: string)
  {
    |s| == 24 && forall i :: 0 <= i < |s| ==> IsHexDigit(s[i])
  }

  predicate IsCanonicalId(s: string)
  {
    |s| == 24 && forall i :: 0 <= i < |s| ==> IsLowerHexDigit(s[i])
  }

  /** The digit `c` in lower case. */
  function LowerHex(c: char): (d: char)
    requires IsHexDigit(c)
    ensures IsLowerHexDigit(d)
    ensures IsLowerHexDigit(c) ==> d == c
    ensures 'A' <= c <= 'F' ==> d as int == c as int + 32
  {
    if 'A' <= c <= 'F' then (c as int + 32) as char else c
  }

  /** Casting a route parameter: Some(the canonical id) or None for a CastError. */
  function CastId(raw: string): (r: Option<ObjectId>)
    ensures r.Some? <==> IsHexId(raw)
    ensures r.Some? ==> IsCanonicalId(r.value) && |r.value| == |raw|
    ensures r.Some? ==> forall i :: 0 <= i < |raw| ==> r.value[i] == LowerHex(raw[i])
  {
    if IsHexId(raw) then Some(seq(|raw|, i requires 0 <= i < |raw| => LowerHex(raw[i]))) else None
  }

  /** An id in its stored form casts to itself, so the id a client was sent finds the record again. */
  lemma CastCanonical(id: string)
    requires IsCanonicalId(id)
    ensures CastId(id) == Some(id)
  {
    var r := CastId(id);
    assert r.Some?;
    assert forall i :: 0 <= i < |id| ==> r.value[i] == id[i];
    assert r.value == id;
  }

  /** Two parameters that differ only in the case of their hex letters name the same record. */
  lemma CastIgnoresCase(a: string, b: string)
    requires IsHexId(a) && |b| == |a|
    requires forall i :: 0 <= i < |a| ==> IsHexDigit(b[i]) && LowerHex(a[i]) == LowerHex(b[i])
    ensures CastId(a) == CastId(b)
  {
    assert CastId(b).Some?;
    assert forall i :: 0 <= i < |a| ==> CastId(a).value[i] == CastId(b).value[i];
    assert CastId(a).value == CastId(b).value;
  }
}
