/** Substring search on texts. */
module Text {

  /** `part` stands in `text` at position `i`. */
  predicate OccursAt(text: string, part: string, i: nat) {
    i + |part| <= |text| && text[i..i + |part|] == part
  }

  predicate Contains(text: string, part: string) {
    exists i: nat :: i <= |text| && OccursAt(text, part, i)
  }

  /** A text without the `k`-th character of `part` does not contain `part`. */
  lemma LacksChar(text: string, part: string, k: nat)
    requires k < |part| && part[k] !in text
    ensures !Contains(text, part)
  {
  }

  lemma OccursChar(text: string, part: string, i: nat, k: nat)
    requires OccursAt(text, part, i) && k < |part|
    ensures text[i + k] == part[k]
  {
  }

  lemma OccursInPrefix(text: string, part: string, n: nat, i: nat)
    requires n <= |text| && OccursAt(text[..n], part, i)
    ensures OccursAt(text, part, i)
  {
    assert text[..n][i..i + |part|] == text[i..i + |part|];
  }

  lemma OccursInSuffix(text: string, part: string, n: nat, i: nat)
    requires n <= |text| && OccursAt(text[n..], part, i)
    ensures OccursAt(text, part, n + i)
  {
    assert text[n..][i..i + |part|] == text[n + i..n + i + |part|];
  }
}
