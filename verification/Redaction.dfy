/**
 Redaction of audit details. The code makes one pass over the text per sensitive key and
 edits it in place. The specification cuts the text at its delimiters into fields and masks
 each field once, for all keys together: everything after the earliest `key=` is replaced.
 */
module Redaction {
  import opened Prelude
  import opened Text

  const MASK := "[REDACTED]"

  const SENSITIVE_KEYS := ["password", "token", "api_key", "secret", "key", "credential"]

  predicate IsDelimiter(c: char) {
    c == ' ' || c == ',' || c == ')' || c == '"'
  }

  /** A text without delimiters; fields and keys are plain. */
  predicate Plain(s: string) {
    forall i :: 0 <= i < |s| ==> !IsDelimiter(s[i])
  }

  predicate PlainKeys(keys: seq<string>) {
    forall k :: k in keys ==> Plain(k)
  }

  // ---- one field ----

  /** The first `e` characters of `s` end with `key=`. */
  predicate EndsWithKey(s: string, key: string, e: nat) {
    |key| + 1 <= e <= |s| && OccursAt(s, key + "=", e - |key| - 1)
  }

  predicate EndsWithAny(s: string, keys: seq<string>, e: nat) {
    exists k :: k in keys && EndsWithKey(s, k, e)
  }

  /** Where the earliest `key=` ends, or a position past the end of the field if there is none. */
  function Cut(s: string, keys: seq<string>, from: nat := 0): (e: nat)
    requires from <= |s| + 1
    ensures from <= e <= |s| + 1
    ensures e <= |s| ==> EndsWithAny(s, keys, e)
    ensures forall x :: from <= x < e ==> !EndsWithAny(s, keys, x)
    decreases |s| + 1 - from
  {
    if from > |s| || EndsWithAny(s, keys, from) then from else Cut(s, keys, from + 1)
  }

  function MaskField(s: string, keys: seq<string>): string {
    var e := Cut(s, keys);
    if e > |s| then s else s[..e] + MASK
  }

  /** The cut is the only position with its two properties. */
  lemma CutIs(s: string, keys: seq<string>, e: nat)
    requires e <= |s| + 1 && (e <= |s| ==> EndsWithAny(s, keys, e))
    requires forall x: nat :: x < e ==> !EndsWithAny(s, keys, x)
    ensures Cut(s, keys) == e
  {
  }

  lemma NoEqualsInMask(i: nat)
    requires i < |MASK|
    ensures MASK[i] != '='
  {
  }

  /** The mask holds no equals sign, so keys only end inside the part of the field that was kept. */
  lemma EndsInMasked(s: string, e: nat, key: string, x: nat)
    requires e <= |s|
    ensures EndsWithKey(s[..e] + MASK, key, x) <==> x <= e && EndsWithKey(s, key, x)
  {
    var t := s[..e] + MASK;
    var n := |key| + 1;
    if n <= x <= e {
      assert t[x - n..x] == s[x - n..x];
    } else if e < x <= |t| && EndsWithKey(t, key, x) {
      NoEqualsInMask(x - 1 - e);
      OccursChar(t, key + "=", x - n, n - 1);
      assert false;
    }
  }

  lemma EndsAnyInMasked(s: string, e: nat, keys: seq<string>, x: nat)
    requires e <= |s|
    ensures EndsWithAny(s[..e] + MASK, keys, x) <==> x <= e && EndsWithAny(s, keys, x)
  {
    var t := s[..e] + MASK;
    if EndsWithAny(t, keys, x) {
      var k :| k in keys && EndsWithKey(t, k, x);
      EndsInMasked(s, e, k, x);
    }
    if x <= e && EndsWithAny(s, keys, x) {
      var k :| k in keys && EndsWithKey(s, k, x);
      EndsInMasked(s, e, k, x);
    }
  }

  /** Masking for one more key afterwards is masking for all the keys at once. */
  lemma MaskFieldCompose(s: string, keys: seq<string>, more: seq<string>)
    ensures MaskField(MaskField(s, keys), more) == MaskField(s, keys + more)
  {
    forall x: nat ensures EndsWithAny(s, keys + more, x) <==> EndsWithAny(s, keys, x) || EndsWithAny(s, more, x) {
      assert forall k :: k in keys + more <==> k in keys || k in more;
    }
    var e, e2 := Cut(s, keys), Cut(s, more);
    if e > |s| {
      CutIs(s, keys + more, e2);
    } else {
      var t := s[..e] + MASK;
      forall x: nat ensures EndsWithAny(t, more, x) <==> x <= e && EndsWithAny(s, more, x) {
        EndsAnyInMasked(s, e, more, x);
      }
      if e2 <= e {
        CutIs(t, more, e2);
        CutIs(s, keys + more, e2);
        assert t[..e2] == s[..e2];
      } else {
        CutIs(t, more, |t| + 1);
        CutIs(s, keys + more, e);
      }
    }
  }

  /** Only the keys matter, not their order or repetition. */
  lemma MaskFieldByKeySet(s: string, keys: seq<string>, other: seq<string>)
    requires forall k :: k in keys <==> k in other
    ensures MaskField(s, keys) == MaskField(s, other)
  {
    forall x: nat ensures EndsWithAny(s, keys, x) <==> EndsWithAny(s, other, x) {}
    CutIs(s, keys, Cut(s, other));
  }

  lemma MaskFieldPlain(s: string, keys: seq<string>)
    requires Plain(s)
    ensures Plain(MaskField(s, keys))
  {
    assert Plain(MASK);
  }

  // ---- a whole text ----

  /** The first delimiter, or the length of the text. */
  function FieldEnd(s: string): (i: nat)
    ensures i <= |s| && Plain(s[..i])
    ensures i < |s| ==> IsDelimiter(s[i])
  {
    if s == [] || IsDelimiter(s[0]) then 0 else
    var i := FieldEnd(s[1..]);
    assert s[..i + 1] == [s[0]] + s[1..][..i];
    i + 1
  }

  lemma {:induction false} FieldEndIs(s: string, i: nat)
    requires i <= |s| && (forall k :: 0 <= k < i ==> !IsDelimiter(s[k])) && (i < |s| ==> IsDelimiter(s[i]))
    ensures FieldEnd(s) == i
  {
    if 0 < i {
      assert !IsDelimiter(s[0]);
      assert forall k :: 0 <= k < i - 1 ==> s[1..][k] == s[k + 1];
      FieldEndIs(s[1..], i - 1);
    }
  }

  function Redacted(s: string, keys: seq<string>): string
    decreases |s|
  {
    var i := FieldEnd(s);
    if i == |s| then MaskField(s, keys)
    else MaskField(s[..i], keys) + [s[i]] + Redacted(s[i + 1..], keys)
  }

  /** A text is its first field, or its first field, a delimiter and another text. */
  lemma RedactedStep(f: string, c: char, rest: string, keys: seq<string>)
    requires Plain(f) && IsDelimiter(c)
    ensures Redacted(f + [c] + rest, keys) == MaskField(f, keys) + [c] + Redacted(rest, keys)
  {
    var s := f + [c] + rest;
    assert s[..|f|] == f && s[|f|] == c && s[|f| + 1..] == rest;
    FieldEndIs(s, |f|);
  }

  lemma RedactedField(f: string, keys: seq<string>)
    requires Plain(f)
    ensures Redacted(f, keys) == MaskField(f, keys)
  {
    assert f[..|f|] == f;
    FieldEndIs(f, |f|);
  }

  lemma {:induction false} RedactedCompose(s: string, keys: seq<string>, more: seq<string>)
    ensures Redacted(Redacted(s, keys), more) == Redacted(s, keys + more)
    decreases |s|
  {
    hide MaskField, Plain;
    var i := FieldEnd(s);
    MaskFieldPlain(s[..i], keys);
    MaskFieldCompose(s[..i], keys, more);
    if i == |s| {
      assert s[..i] == s;
      RedactedField(MaskField(s, keys), more);
    } else {
      RedactedCompose(s[i + 1..], keys, more);
      RedactedStep(MaskField(s[..i], keys), s[i], Redacted(s[i + 1..], keys), more);
    }
  }

  lemma MaskFieldNone(s: string)
    ensures MaskField(s, []) == s
  {
  }

  /** Without keys nothing is masked. */
  lemma {:induction false} RedactedNone(s: string)
    ensures Redacted(s, []) == s
    decreases |s|
  {
    hide MaskField, Plain;
    var i := FieldEnd(s);
    assert s[..i] == s || i < |s|;
    MaskFieldNone(s[..i]);
    if i < |s| {
      RedactedNone(s[i + 1..]);
      assert s == s[..i] + [s[i]] + s[i + 1..];
    }
  }

  /** The order in which the passes are made does not matter. */
  lemma {:induction false} OrderIrrelevant(s: string, keys: seq<string>, other: seq<string>)
    requires forall k :: k in keys <==> k in other
    ensures Redacted(s, keys) == Redacted(s, other)
    decreases |s|
  {
    hide MaskField, Plain, Redacted;
    var i := FieldEnd(s);
    MaskFieldByKeySet(s[..i], keys, other);
    if i == |s| {
      assert s[..i] == s;
      RedactedField(s, keys);
      RedactedField(s, other);
    } else {
      var rest := s[i + 1..];
      assert s == s[..i] + [s[i]] + rest;
      OrderIrrelevant(rest, keys, other);
      RedactedStep(s[..i], s[i], rest, keys);
      RedactedStep(s[..i], s[i], rest, other);
    }
  }

  /** Redacting again changes nothing. */
  lemma Idempotent(s: string, keys: seq<string>)
    ensures Redacted(Redacted(s, keys), keys) == Redacted(s, keys)
  {
    RedactedCompose(s, keys, keys);
    OrderIrrelevant(s, keys + keys, keys);
  }

  // ---- what redaction guarantees ----

  /** The pattern of `key` at `i` is followed by the mask, and the mask by a delimiter or the end. */
  predicate MaskedAt(s: string, key: string, i: nat) {
    var v := i + |key| + 1;
    && OccursAt(s, MASK, v)
    && (v + |MASK| == |s| || IsDelimiter(s[v + |MASK|]))
  }

  ghost predicate Clean(s: string, keys: seq<string>) {
    forall key, i: nat :: key in keys && OccursAt(s, key + "=", i) ==> MaskedAt(s, key, i)
  }

  lemma FieldClean(f: string, keys: seq<string>, key: string, i: nat)
    requires key in keys && OccursAt(MaskField(f, keys), key + "=", i)
    ensures OccursAt(MaskField(f, keys), MASK, i + |key| + 1)
    ensures i + |key| + 1 + |MASK| == |MaskField(f, keys)|
  {
    var x := i + |key| + 1;
    var e := Cut(f, keys);
    assert EndsWithKey(MaskField(f, keys), key, x);
    assert EndsWithAny(MaskField(f, keys), keys, x);
    if e > |f| {
      assert false;
    } else {
      EndsInMasked(f, e, key, x);
      assert EndsWithAny(f, keys, x);
      assert x == e;
    }
  }

  /** A plain pattern around a delimiter lies before it or behind it. */
  lemma OccursInParts(a: string, c: char, b: string, part: string, i: nat)
    requires IsDelimiter(c) && Plain(part) && part != "" && OccursAt(a + [c] + b, part, i)
    ensures (i + |part| <= |a| && OccursAt(a, part, i))
         || (i > |a| && OccursAt(b, part, i - |a| - 1))
  {
    var s := a + [c] + b;
    if i <= |a| < i + |part| {
      OccursChar(s, part, i, |a| - i);
      assert false;
    } else if i + |part| <= |a| {
      assert s[i..i + |part|] == a[i..i + |part|];
    } else {
      var k := i - |a| - 1;
      assert s[i..i + |part|] == b[k..k + |part|];
    }
  }

  lemma PlainPattern(key: string)
    requires Plain(key)
    ensures Plain(key + "=")
  {
  }

  /** After redaction every `key=` is immediately followed by the mask and a delimiter or the end. */
  lemma {:induction false} RedactedClean(s: string, keys: seq<string>)
    requires PlainKeys(keys)
    ensures Clean(Redacted(s, keys), keys)
    decreases |s|
  {
    var i := FieldEnd(s);
    var f := MaskField(s[..i], keys);
    if i == |s| {
      assert s[..i] == s;
      forall key, j: nat | key in keys && OccursAt(f, key + "=", j) ensures MaskedAt(f, key, j) {
        FieldClean(s, keys, key, j);
      }
    } else {
      var rest := Redacted(s[i + 1..], keys);
      RedactedClean(s[i + 1..], keys);
      CleanJoin(s[..i], s[i], rest, keys);
    }
  }

  lemma CleanJoin(f: string, c: char, rest: string, keys: seq<string>)
    requires PlainKeys(keys) && IsDelimiter(c) && Clean(rest, keys)
    ensures Clean(MaskField(f, keys) + [c] + rest, keys)
  {
    var m := MaskField(f, keys);
    var s := m + [c] + rest;
    forall key, j: nat | key in keys && OccursAt(s, key + "=", j) ensures MaskedAt(s, key, j) {
      PlainPattern(key);
      OccursInParts(m, c, rest, key + "=", j);
      var v := j + |key| + 1;
      if v <= |m| {
        FieldClean(f, keys, key, j);
        assert s[v..v + |MASK|] == m[v..v + |MASK|];
      } else {
        var d := |m| + 1;
        assert MaskedAt(rest, key, j - d);
        assert s[v..v + |MASK|] == rest[v - d..v - d + |MASK|];
      }
    }
  }

  /** A field is masked the same whatever follows its first `key=`. */
  lemma MaskFieldHides(p: string, v: string, w: string, keys: seq<string>)
    requires EndsWithAny(p, keys, |p|)
    ensures MaskField(p + v, keys) == MaskField(p + w, keys)
  {
    forall x: nat | x <= |p|
      ensures EndsWithAny(p + v, keys, x) <==> EndsWithAny(p, keys, x)
      ensures EndsWithAny(p + w, keys, x) <==> EndsWithAny(p, keys, x)
    {
      EndsInPrefix(p, v, keys, x);
      EndsInPrefix(p, w, keys, x);
    }
    CutIs(p + v, keys, Cut(p, keys));
    CutIs(p + w, keys, Cut(p, keys));
  }

  lemma EndsInPrefix(p: string, v: string, keys: seq<string>, x: nat)
    requires x <= |p|
    ensures EndsWithAny(p + v, keys, x) <==> EndsWithAny(p, keys, x)
  {
    forall k | k in keys && |k| + 1 <= x
      ensures EndsWithKey(p + v, k, x) <==> EndsWithKey(p, k, x)
    {
      assert (p + v)[x - |k| - 1..x] == p[x - |k| - 1..x];
    }
  }

  function Assignment(key: string, value: string): string {
    key + "=" + value
  }

  /** Two texts that differ only in a plain value behind a sensitive key are redacted to the same text. */
  lemma {:induction false} PlainSecretsDoNotMatter(before: string, key: string, v: string, w: string, after: string, keys: seq<string>)
    requires PlainKeys(keys) && key in keys && Plain(v) && Plain(w)
    requires after == [] || IsDelimiter(after[0])
    ensures Redacted(before + Assignment(key, v) + after, keys) == Redacted(before + Assignment(key, w) + after, keys)
    decreases |before|
  {
    hide Redacted, MaskField, Assignment, Plain;
    var i := FieldEnd(before);
    if i < |before| {
      var f, c, rest := before[..i], before[i], before[i + 1..];
      PlainSecretsDoNotMatter(rest, key, v, w, after, keys);
      Unfold(before, i, Assignment(key, v), after);
      Unfold(before, i, Assignment(key, w), after);
      RedactedStep(f, c, rest + Assignment(key, v) + after, keys);
      RedactedStep(f, c, rest + Assignment(key, w) + after, keys);
    } else {
      assert before[..i] == before;
      SecretInField(before, key, v, w, after, keys);
    }
  }

  lemma Unfold(before: string, i: nat, a: string, after: string)
    requires i < |before|
    ensures before + a + after == before[..i] + [before[i]] + (before[i + 1..] + a + after)
  {
    assert before == before[..i] + [before[i]] + before[i + 1..];
  }

  lemma SecretInField(f: string, key: string, v: string, w: string, after: string, keys: seq<string>)
    requires PlainKeys(keys) && key in keys && Plain(v) && Plain(w) && Plain(f)
    requires after == [] || IsDelimiter(after[0])
    ensures Redacted(f + Assignment(key, v) + after, keys) == Redacted(f + Assignment(key, w) + after, keys)
  {
    hide Redacted, MaskField;
    var p := f + key + "=";
    assert f + Assignment(key, v) == p + v && f + Assignment(key, w) == p + w;
    assert Plain(p + v) && Plain(p + w);
    assert EndsWithKey(p, key, |p|) by { assert p[|f|..|f| + |key| + 1] == key + "="; }
    MaskFieldHides(p, v, w, keys);
    LastField(p + v, after, keys);
    LastField(p + w, after, keys);
  }

  /** A field up to a delimiter or the end of the text is masked on its own. */
  lemma LastField(f: string, after: string, keys: seq<string>)
    requires Plain(f) && (after == [] || IsDelimiter(after[0]))
    ensures Redacted(f + after, keys) == MaskField(f, keys) + Redacted(after, keys)
  {
    hide Redacted, MaskField;
    MaskEmpty(keys);
    if after == [] {
      assert f + after == f;
      RedactedField(f, keys);
      RedactedField([], keys);
    } else {
      var c, rest := after[0], after[1..];
      assert after == [] + [c] + rest;
      assert f + after == f + [c] + rest;
      RedactedStep(f, c, rest, keys);
      RedactedStep([], c, rest, keys);
    }
  }

  lemma MaskEmpty(keys: seq<string>)
    ensures MaskField([], keys) == []
  {
  }

  // ---- what redaction lets through ----

  function Delimiters(s: string): nat {
    if s == [] then 0 else Delimiters(s[..|s| - 1]) + if IsDelimiter(s[|s| - 1]) then 1 else 0
  }

  lemma {:induction false} DelimitersAdd(a: string, b: string)
    ensures Delimiters(a + b) == Delimiters(a) + Delimiters(b)
    decreases |b|
  {
    if b == [] {
      assert a + b == a;
    } else {
      var n := |b| - 1;
      assert (a + b)[..|a| + n] == a + b[..n];
      DelimitersAdd(a, b[..n]);
    }
  }

  lemma {:induction false} PlainIffNoDelimiters(s: string)
    ensures Plain(s) <==> Delimiters(s) == 0
  {
    if s != [] {
      var n := |s| - 1;
      PlainIffNoDelimiters(s[..n]);
      assert Plain(s) <==> Plain(s[..n]) && !IsDelimiter(s[n]);
    }
  }

  /** Redaction never removes a delimiter. */
  lemma {:induction false} RedactedKeepsDelimiters(s: string, keys: seq<string>)
    ensures Delimiters(Redacted(s, keys)) == Delimiters(s)
    decreases |s|
  {
    hide MaskField, Plain, Delimiters;
    var i := FieldEnd(s);
    var f := s[..i];
    MaskFieldPlain(f, keys);
    PlainIffNoDelimiters(f);
    PlainIffNoDelimiters(MaskField(f, keys));
    if i == |s| {
      assert f == s;
    } else {
      var c, rest := [s[i]], s[i + 1..];
      RedactedKeepsDelimiters(rest, keys);
      assert s == f + c + rest;
      DelimitersAdd(f + c, rest);
      DelimitersAdd(f, c);
      DelimitersAdd(MaskField(f, keys) + c, Redacted(rest, keys));
      DelimitersAdd(MaskField(f, keys), c);
    }
  }

  /** Of a value behind a sensitive key only the part before its first delimiter is hidden; the rest is redacted as text of its own. */
  lemma OnlyFirstFieldHidden(before: string, key: string, v: string, after: string, keys: seq<string>)
    requires PlainKeys(keys) && key in keys && (after == [] || IsDelimiter(after[0]))
    ensures Redacted(before + Assignment(key, v) + after, keys)
         == Redacted(before + Assignment(key, "") + (v[FieldEnd(v)..] + after), keys)
  {
    hide Redacted, PlainKeys, Assignment, Plain;
    var i := FieldEnd(v);
    NothingIsPlain();
    PlainSecretsDoNotMatter(before, key, v[..i], "", v[i..] + after, keys);
    SplitValue(before, key, v, i, after);
  }

  lemma SplitValue(before: string, key: string, v: string, i: nat, after: string)
    requires i <= |v|
    ensures before + Assignment(key, v) + after == before + Assignment(key, v[..i]) + (v[i..] + after)
  {
    assert v == v[..i] + v[i..];
  }

  /** A value behind a sensitive key is hidden exactly when it holds no delimiter. */
  lemma SecretHiddenIff(before: string, key: string, v: string, after: string, keys: seq<string>)
    requires PlainKeys(keys) && key in keys && (after == [] || IsDelimiter(after[0]))
    ensures Redacted(before + Assignment(key, v) + after, keys) == Redacted(before + Assignment(key, "") + after, keys) <==> Plain(v)
  {
    hide Redacted, PlainKeys, Delimiters, Plain;
    PlainIffNoDelimiters(v);
    if Plain(v) {
      NothingIsPlain();
      PlainSecretsDoNotMatter(before, key, v, "", after, keys);
    } else {
      var with, without := before + Assignment(key, v) + after, before + Assignment(key, "") + after;
      RedactedKeepsDelimiters(with, keys);
      RedactedKeepsDelimiters(without, keys);
      assert with == before + Assignment(key, "") + v + after;
      DelimitersAdd(before + Assignment(key, "") + v, after);
      DelimitersAdd(before + Assignment(key, ""), v);
      DelimitersAdd(before + Assignment(key, ""), after);
    }
  }

  // ---- by name ----

  /** A field whose first equals sign follows a sensitive key is cut right behind it. */
  lemma CutAtFirstEquals(k: string, v: string, keys: seq<string>)
    requires k in keys && forall i :: 0 <= i < |k| ==> k[i] != '='
    ensures MaskField(k + "=" + v, keys) == k + "=" + MASK
  {
    var f, e := k + "=" + v, |k| + 1;
    forall x: nat | x < e ensures !EndsWithAny(f, keys, x) {
      NoKeyWithoutEquals(f, keys, x);
    }
    assert f[0..e] == k + "=";
    assert EndsWithKey(f, k, e);
    CutIs(f, keys, e);
  }

  lemma PlainField(k: string, v: string)
    requires Plain(k) && Plain(v)
    ensures Plain(k + "=" + v)
  {
  }

  lemma KeyFieldRedacted(k: string, v: string, keys: seq<string>)
    requires k in keys && Plain(k) && Plain(v) && forall i :: 0 <= i < |k| ==> k[i] != '='
    ensures Redacted(k + "=" + v, keys) == k + "=" + MASK
  {
    hide Redacted, MaskField, Plain;
    PlainField(k, v);
    CutAtFirstEquals(k, v, keys);
    RedactedField(k + "=" + v, keys);
  }

  lemma KeyFieldThen(k: string, v: string, c: char, w: string, keys: seq<string>)
    requires k in keys && Plain(k) && Plain(v) && IsDelimiter(c) && forall i :: 0 <= i < |k| ==> k[i] != '='
    ensures Redacted(k + "=" + v + [c] + w, keys) == k + "=" + MASK + [c] + Redacted(w, keys)
  {
    hide Redacted, MaskField, Plain;
    PlainField(k, v);
    CutAtFirstEquals(k, v, keys);
    RedactedStep(k + "=" + v, c, w, keys);
  }

  lemma PlainByName(s: string)
    requires forall i :: 0 <= i < |s| ==> s[i] != ' ' && s[i] != ',' && s[i] != ')' && s[i] != '"'
    ensures Plain(s)
  {
  }

  lemma MaskByName(k: string)
    ensures k + "=" + MASK == k + "=[REDACTED]"
  {
  }

  /** The six sensitive words. */
  predicate IsSensitive(k: string) {
    k == "password" || k == "token" || k == "api_key" || k == "secret" || k == "key" || k == "credential"
  }

  lemma SensitiveIsListed(k: string)
    ensures k in SENSITIVE_KEYS <==> IsSensitive(k)
    ensures IsSensitive(k) ==> forall i :: 0 <= i < |k| ==> k[i] != '=' && k[i] != ' ' && k[i] != ',' && k[i] != ')' && k[i] != '"'
  {
    assert SENSITIVE_KEYS[0] == "password" && SENSITIVE_KEYS[1] == "token" && SENSITIVE_KEYS[2] == "api_key";
    assert SENSITIVE_KEYS[3] == "secret" && SENSITIVE_KEYS[4] == "key" && SENSITIVE_KEYS[5] == "credential";
  }

  /** Behind each of the six words a value without space, comma, closing parenthesis and quote is replaced as a whole. */
  lemma SensitiveValueReplaced(k: string, v: string)
    requires IsSensitive(k)
    requires forall i :: 0 <= i < |v| ==> v[i] != ' ' && v[i] != ',' && v[i] != ')' && v[i] != '"'
    ensures Redacted(k + "=" + v, SENSITIVE_KEYS) == k + "=[REDACTED]"
  {
    hide Redacted, IsSensitive, Plain;
    SensitiveIsListed(k);
    PlainByName(k);
    PlainByName(v);
    KeyFieldRedacted(k, v, SENSITIVE_KEYS);
    MaskByName(k);
  }

  /** Each of the four characters ends the value; it stays, and what follows is redacted as text of its own. */
  lemma SensitiveValueEnds(k: string, v: string, c: char, w: string)
    requires IsSensitive(k) && (c == ' ' || c == ',' || c == ')' || c == '"')
    requires forall i :: 0 <= i < |v| ==> v[i] != ' ' && v[i] != ',' && v[i] != ')' && v[i] != '"'
    ensures Redacted(k + "=" + v + [c] + w, SENSITIVE_KEYS) == k + "=[REDACTED]" + [c] + Redacted(w, SENSITIVE_KEYS)
  {
    hide Redacted, IsSensitive, Plain;
    SensitiveIsListed(k);
    PlainByName(k);
    PlainByName(v);
    KeyFieldThen(k, v, c, w, SENSITIVE_KEYS);
    MaskByName(k);
  }

  /** A text in which none of the six words is followed by an equals sign is logged as it is. */
  lemma HarmlessTextKept(s: string)
    requires forall k, i: nat :: IsSensitive(k) ==> !OccursAt(s, k + "=", i)
    ensures Redacted(s, SENSITIVE_KEYS) == s
  {
    hide Redacted, IsSensitive, OccursAt;
    RedactedNone(s);
    for n := 0 to |SENSITIVE_KEYS|
      invariant Redacted(s, SENSITIVE_KEYS[..n]) == s
    {
      var key := SENSITIVE_KEYS[n];
      SensitiveIsListed(key);
      RedactedCompose(s, SENSITIVE_KEYS[..n], [key]);
      assert SENSITIVE_KEYS[..n] + [key] == SENSITIVE_KEYS[..n + 1];
      Untouched(s, key);
    }
    assert SENSITIVE_KEYS[..|SENSITIVE_KEYS|] == SENSITIVE_KEYS;
  }

  lemma NothingIsPlain()
    ensures Plain("")
  {
  }

  /** A quoted password reaches the log: the quote ends the value before it has begun. */
  lemma QuotedPasswordLeaks()
    ensures Redacted("password=\"hunter2\"", SENSITIVE_KEYS) == "password=[REDACTED]\"hunter2\""
  {
    var f, rest := "password=", "hunter2\"";
    hide Redacted, MaskField;
    assert "password=\"hunter2\"" == f + ['"'] + rest;
    RedactedStep(f, '"', rest, SENSITIVE_KEYS);
    assert rest == "hunter2" + ['"'] + "";
    RedactedStep("hunter2", '"', "", SENSITIVE_KEYS);
    RedactedField("", SENSITIVE_KEYS);
    MaskEmpty(SENSITIVE_KEYS);
    PasswordMasked();
    HunterKept();
  }

  /** A key ends only behind an equals sign. */
  lemma NoKeyWithoutEquals(s: string, keys: seq<string>, x: nat)
    requires 0 < x <= |s| ==> s[x - 1] != '='
    ensures !EndsWithAny(s, keys, x)
  {
    if EndsWithAny(s, keys, x) {
      var k :| k in keys && EndsWithKey(s, k, x);
      OccursChar(s, k + "=", x - |k| - 1, |k|);
    }
  }

  lemma PasswordMasked()
    ensures MaskField("password=", SENSITIVE_KEYS) == "password=[REDACTED]"
  {
    hide EndsWithAny;
    var f := "password=";
    forall x: nat | x < 9 ensures !EndsWithAny(f, SENSITIVE_KEYS, x) {
      NoKeyWithoutEquals(f, SENSITIVE_KEYS, x);
    }
    PasswordEnds();
    CutIs(f, SENSITIVE_KEYS, 9);
  }

  lemma PasswordEnds()
    ensures EndsWithAny("password=", SENSITIVE_KEYS, 9)
  {
    assert SENSITIVE_KEYS[0] == "password";
    assert EndsWithKey("password=", "password", 9);
  }

  lemma HunterKept()
    ensures MaskField("hunter2", SENSITIVE_KEYS) == "hunter2"
  {
    hide EndsWithAny;
    var f := "hunter2";
    forall x: nat ensures !EndsWithAny(f, SENSITIVE_KEYS, x) {
      NoKeyWithoutEquals(f, SENSITIVE_KEYS, x);
    }
    CutIs(f, SENSITIVE_KEYS, |f| + 1);
  }

  // ---- the passes ----

  /** The first occurrence of `part` at or after `from`. */
  function Find(s: string, part: string, from: nat): (r: Option<nat>)
    requires from <= |s|
    ensures r.Some? ==> from <= r.value && OccursAt(s, part, r.value)
    ensures r.Some? ==> forall i: nat :: from <= i < r.value ==> !OccursAt(s, part, i)
    ensures r.None? ==> forall i: nat :: from <= i ==> !OccursAt(s, part, i)
    decreases |s| - from
  {
    if OccursAt(s, part, from) then Some(from)
    else if from == |s| then None
    else Find(s, part, from + 1)
  }

  lemma MaskFieldUntouched(f: string, key: string)
    requires forall i: nat :: !OccursAt(f, key + "=", i)
    ensures MaskField(f, [key]) == f
  {
    CutIs(f, [key], |f| + 1);
  }

  lemma NoneBefore(f: string, s: string, key: string)
    requires |f| <= |s| && s[..|f|] == f
    requires forall i: nat :: i < |f| ==> !OccursAt(s, key + "=", i)
    ensures forall i: nat :: !OccursAt(f, key + "=", i)
  {
    forall i: nat ensures !OccursAt(f, key + "=", i) {
      if OccursAt(f, key + "=", i) { OccursInPrefix(s, key + "=", |f|, i); }
    }
  }

  lemma NoneAfter(s: string, n: nat, key: string)
    requires n <= |s| && forall i: nat :: n <= i ==> !OccursAt(s, key + "=", i)
    ensures forall i: nat :: !OccursAt(s[n..], key + "=", i)
  {
    var rest := s[n..];
    forall i: nat ensures !OccursAt(rest, key + "=", i) {
      if OccursAt(rest, key + "=", i) { OccursInSuffix(s, key + "=", n, i); }
    }
  }

  lemma {:induction false} Untouched(s: string, key: string)
    requires forall i: nat :: !OccursAt(s, key + "=", i)
    ensures Redacted(s, [key]) == s
    decreases |s|
  {
    hide MaskField, OccursAt, Plain;
    var n := FieldEnd(s);
    NoneBefore(s[..n], s, key);
    MaskFieldUntouched(s[..n], key);
    if n == |s| {
      assert s[..n] == s;
    } else {
      NoneAfter(s, n + 1, key);
      Untouched(s[n + 1..], key);
      assert s == s[..n] + [s[n]] + s[n + 1..];
    }
  }

  /** The text up to the end of the first value, and what is behind it. */
  lemma {:induction false} FirstHit(before: string, key: string, value: string, after: string)
    requires Plain(key) && Plain(value) && (after == [] || IsDelimiter(after[0]))
    requires forall i: nat :: i < |before| ==> !OccursAt(before + Assignment(key, value) + after, key + "=", i)
    ensures Redacted(before + Assignment(key, value) + after, [key])
         == before + Assignment(key, MASK) + Redacted(after, [key])
    decreases |before|
  {
    hide Redacted, MaskField, Assignment, Plain, OccursAt;
    var a := Assignment(key, value);
    var n := FieldEnd(before);
    if n < |before| {
      var rest := before[n + 1..];
      Unfold(before, n, a, after);
      Unfold(before, n, Assignment(key, MASK), Redacted(after, [key]));
      assert (before + a + after)[n + 1..] == rest + a + after;
      assert (before + a + after)[..n] == before[..n];
      forall i: nat | i < |rest| ensures !OccursAt(rest + a + after, key + "=", i) {
        if OccursAt(rest + a + after, key + "=", i) { OccursInSuffix(before + a + after, key + "=", n + 1, i); }
      }
      NoneBefore(before[..n], before + a + after, key);
      MaskFieldUntouched(before[..n], key);
      FirstHit(rest, key, value, after);
      RedactedStep(before[..n], before[n], rest + a + after, [key]);
    } else {
      assert before[..n] == before;
      HitInField(before, key, value, after);
    }
  }

  lemma HitInField(f: string, key: string, value: string, after: string)
    requires Plain(f) && Plain(key) && Plain(value) && (after == [] || IsDelimiter(after[0]))
    requires forall i: nat :: i < |f| ==> !OccursAt(f + Assignment(key, value) + after, key + "=", i)
    ensures Redacted(f + Assignment(key, value) + after, [key])
         == f + Assignment(key, MASK) + Redacted(after, [key])
  {
    hide Redacted;
    var field := f + Assignment(key, value);
    var e := |f| + |key| + 1;
    assert Plain(field);
    assert (field + after)[..|field|] == field;
    assert EndsWithKey(field, key, e) by { assert field[|f|..e] == key + "="; }
    forall x: nat | x < e ensures !EndsWithAny(field, [key], x) {
      if EndsWithKey(field, key, x) { OccursInPrefix(field + after, key + "=", |field|, x - |key| - 1); }
    }
    CutIs(field, [key], e);
    assert field[..e] + MASK == f + Assignment(key, MASK);
    LastField(field, after, [key]);
  }

  /** One pass: every value behind `key=` is overwritten in place, left to right. */
  method RedactKey(input: string, key: string) returns (result: string)
    requires key != "" && Plain(key)
    ensures result == Redacted(input, [key])
  {
    hide Redacted, MaskField;
    var pattern := key + "=";
    result := input;
    var searchFrom: nat := 0;
    assert input[..0] + input[0..] == input && input[0..] == input;
    while true
      invariant searchFrom <= |result|
      invariant Redacted(input, [key]) == result[..searchFrom] + Redacted(result[searchFrom..], [key])
      decreases |result| - searchFrom
    {
      var found := Find(result, pattern, searchFrom);
      if found.None? { break; }
      var absPos := found.value;
      var valueStart := absPos + |pattern|;
      var valueEnd := valueStart + FieldEnd(result[valueStart..]);
      PassStep(result, key, searchFrom, absPos, valueEnd);
      result := result[..absPos] + key + "=" + MASK + result[valueEnd..];
      searchFrom := absPos + |key| + |MASK|;
    }
    assert result == result[..searchFrom] + result[searchFrom..];
    PassDone(result, key, searchFrom);
  }

  /** Overwriting the first value and moving on to the last character of the mask keeps the result in sight. */
  lemma PassStep(s: string, key: string, from: nat, absPos: nat, valueEnd: nat)
    requires key != "" && Plain(key) && from <= absPos && OccursAt(s, key + "=", absPos)
    requires forall i: nat :: from <= i < absPos ==> !OccursAt(s, key + "=", i)
    requires valueEnd == absPos + |key| + 1 + FieldEnd(s[absPos + |key| + 1..])
    ensures var s' := s[..absPos] + key + "=" + MASK + s[valueEnd..];
            var from' := absPos + |key| + |MASK|;
            && from' <= |s'| && |s'| - from' < |s| - from
            && s[..from] + Redacted(s[from..], [key]) == s'[..from'] + Redacted(s'[from'..], [key])
  {
    hide Redacted, MaskField, Plain, Assignment;
    var v := absPos + |key| + 1;
    var before, value, after := s[from..absPos], s[v..valueEnd], s[valueEnd..];
    var s' := s[..absPos] + key + "=" + MASK + after;
    assert s[v..][..valueEnd - v] == value;
    PassShape(s, key, from, absPos, valueEnd);
    forall i: nat | i < |before| ensures !OccursAt(before + Assignment(key, value) + after, key + "=", i) {
      if OccursAt(s[from..], key + "=", i) { OccursInSuffix(s, key + "=", from, i); }
    }
    FirstHit(before, key, value, after);
    BracketStays(key);
    LastField("]", after, [key]);
    Regroup(s[..from], before, key, Redacted(after, [key]));
    assert s[..absPos] == s[..from] + before;
  }

  /** The text around the first value, before and after the overwriting. */
  lemma PassShape(s: string, key: string, from: nat, absPos: nat, valueEnd: nat)
    requires from <= absPos && OccursAt(s, key + "=", absPos) && absPos + |key| + 1 <= valueEnd <= |s|
    ensures s[from..] == s[from..absPos] + Assignment(key, s[absPos + |key| + 1..valueEnd]) + s[valueEnd..]
    ensures var s' := s[..absPos] + key + "=" + MASK + s[valueEnd..];
            var from' := absPos + |key| + |MASK|;
            && from' <= |s'| && |s'| - from' == |s| - valueEnd + 1
            && s'[..from'] == s[..absPos] + key + "=" + MASK[..9] && s'[from'..] == "]" + s[valueEnd..]
  {
    var s' := s[..absPos] + key + "=" + MASK + s[valueEnd..];
    var head := s[..absPos] + key + "=" + MASK[..9];
    SplitMask();
    assert s' == head + ("]" + s[valueEnd..]);
    assert |head| == absPos + |key| + |MASK|;
  }

  lemma Regroup(front: string, before: string, key: string, rest: string)
    ensures front + (before + Assignment(key, MASK) + rest) == (front + before) + key + "=" + MASK[..9] + ("]" + rest)
  {
    SplitMask();
  }

  lemma SplitMask()
    ensures MASK == MASK[..9] + "]"
  {
  }

  lemma BracketStays(key: string)
    ensures MaskField("]", [key]) == "]" && Plain("]")
  {
    forall i: nat ensures !OccursAt("]", key + "=", i) {
      if OccursAt("]", key + "=", i) { OccursChar("]", key + "=", i, |key|); }
    }
    MaskFieldUntouched("]", key);
  }

  lemma PassDone(s: string, key: string, from: nat)
    requires from <= |s| && forall i: nat :: from <= i ==> !OccursAt(s, key + "=", i)
    ensures Redacted(s[from..], [key]) == s[from..]
  {
    hide OccursAt, Redacted;
    NoneAfter(s, from, key);
    Untouched(s[from..], key);
  }

  /** All passes, one key after the other, on every text. */
  method RedactSensitive(input: string) returns (result: string)
    ensures result == Redacted(input, SENSITIVE_KEYS)
    ensures Clean(result, SENSITIVE_KEYS)
  {
    hide Redacted;
    KeysArePlain();
    result := input;
    RedactedNone(input);
    for n := 0 to |SENSITIVE_KEYS|
      invariant result == Redacted(input, SENSITIVE_KEYS[..n])
    {
      var key := SENSITIVE_KEYS[n];
      RedactedCompose(input, SENSITIVE_KEYS[..n], [key]);
      assert SENSITIVE_KEYS[..n] + [key] == SENSITIVE_KEYS[..n + 1];
      result := RedactKey(result, key);
    }
    assert SENSITIVE_KEYS[..|SENSITIVE_KEYS|] == SENSITIVE_KEYS;
    RedactedClean(input, SENSITIVE_KEYS);
  }

  lemma KeysArePlain()
    ensures PlainKeys(SENSITIVE_KEYS)
  {
  }
}
