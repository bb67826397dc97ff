/** The two .NET string operations the client's protocol code relies on:
    prefix testing (String.StartsWith) and splitting on one delimiter
    character (String.Split(char)). */
module Strings {
  import opened Wrappers

  /** Ordinal prefix test. */
  predicate StartsWith(s: string, prefix: string) {
    prefix <= s
  }

  /** Glues parts back together with d between consecutive parts. */
  function Join(parts: seq<string>, d: char): string
    requires |parts| >= 1
    decreases |parts|
  {
    if |parts| == 1 then parts[0] else parts[0] + [d] + Join(parts[1..], d)
  }

  /** String.Split(d): the maximal d-free pieces between delimiters, empty
      pieces included, so a string with n delimiters gives n + 1 parts. */
  function Split(s: string, d: char): (parts: seq<string>)
    ensures |parts| >= 1
    ensures |parts| == 1 <==> d !in s
    ensures forall k :: 0 <= k < |parts| ==> d !in parts[k]
    ensures Join(parts, d) == s
    decreases |s|
  {
    if |s| == 0 then [""]
    else
      var rest := Split(s[1..], d);
      if s[0] == d then [""] + rest
      else [[s[0]] + rest[0]] + rest[1..]
  }

  /** Split(d)[i], or None where .NET throws IndexOutOfRangeException. */
  function SplitField(s: string, d: char, i: nat): (r: Option<string>)
    ensures r.Some? <==> i < |Split(s, d)|
    ensures r.Some? ==> r.value == Split(s, d)[i]
    ensures r.Some? ==> d !in r.value
  {
    var parts := Split(s, d);
    if i < |parts| then Some(parts[i]) else None
  }

  /* ---------------------------------------------------------------------
     Lemmas
     --------------------------------------------------------------------- */

  /** A leading d-free piece followed by d splits off as the first part. */
  lemma {:induction false} SplitAfterPiece(a: string, d: char, rest: string)
    requires d !in a
    ensures Split(a + [d] + rest, d) == [a] + Split(rest, d)
    decreases |a|
  {
    if |a| == 0 {
      assert a + [d] + rest == [d] + rest;
      assert ([d] + rest)[1..] == rest;
    } else {
      var s := a + [d] + rest;
      assert s[1..] == a[1..] + [d] + rest;
      SplitAfterPiece(a[1..], d, rest);
      assert [a[0]] + a[1..] == a;
    }
  }

  /** Split and Join are inverse on non-empty lists of d-free parts. */
  lemma {:induction false} SplitJoin(parts: seq<string>, d: char)
    requires |parts| >= 1
    requires forall k :: 0 <= k < |parts| ==> d !in parts[k]
    ensures Split(Join(parts, d), d) == parts
    decreases |parts|
  {
    if |parts| == 1 {
      assert Join(parts, d) == parts[0];
      assert Split(parts[0], d) == [parts[0]];
    } else {
      SplitJoin(parts[1..], d);
      SplitAfterPiece(parts[0], d, Join(parts[1..], d));
      assert [parts[0]] + parts[1..] == parts;
    }
  }

  /** Field 1 of tag + d + field + rest is field, when the field ends at
      the end of the string or at the next delimiter. */
  lemma SecondField(tag: string, d: char, field: string, rest: string)
    requires d !in tag && d !in field
    requires rest == [] || rest[0] == d
    ensures SplitField(tag + [d] + field + rest, d, 1) == Some(field)
  {
    SplitAfterPiece(tag, d, field + rest);
    assert tag + [d] + field + rest == tag + [d] + (field + rest);
    if rest == [] {
      assert field + rest == field;
      assert Split(field, d) == [field];
    } else {
      SplitAfterPiece(field, d, rest[1..]);
      assert field + [d] + rest[1..] == field + rest;
    }
  }
}
