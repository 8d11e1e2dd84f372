/**
 * The string operations the article list relies on: lower-casing
 * (`String.prototype.toLowerCase`, modelled on ASCII letters only),
 * substring search (`String.prototype.includes`) and the card preview.
 */
module Text {
  import opened Seqs

  predicate IsUpper(c: char) { 'A' <= c <= 'Z' }

  function LowerChar(c: char): char
  {
    if IsUpper(c) then (c as int + 32) as char else c
  }

  /** ASCII lower-casing: letters A-Z become a-z, every other character stays. */
  function ToLower(s: string): (r: string)
    ensures |r| == |s|
    ensures forall i :: 0 <= i < |r| ==> !IsUpper(r[i])
    ensures forall i :: 0 <= i < |s| && !IsUpper(s[i]) ==> r[i] == s[i]
    ensures forall i :: 0 <= i < |s| && IsUpper(s[i]) ==> r[i] as int == s[i] as int + 32
  {
    seq(|s|, i requires 0 <= i < |s| => LowerChar(s[i]))
  }

  lemma ToLowerIdempotent(s: string)
    ensures ToLower(ToLower(s)) == ToLower(s)
  {
  }

  /** `t` occurs in `s` starting at position `i`. */
  predicate OccursAt(s: string, t: string, i: nat)
  {
    i + |t| <= |s| && s[i..i + |t|] == t
  }

  /** `s.includes(t)`: some suffix of `s` starts with `t`. */
  predicate Contains(s: string, t: string)
    ensures t == [] ==> Contains(s, t)
    ensures Contains(s, t) ==> |t| <= |s|
  {
    t <= s || (s != [] && Contains(s[1..], t))
  }

  /** `Contains` holds exactly when `t` occurs at some position of `s`. */
  lemma {:induction false} ContainsIffOccurs(s: string, t: string)
    ensures Contains(s, t) <==> exists i: nat :: OccursAt(s, t, i)
  {
    if t <= s {
      assert OccursAt(s, t, 0);
    } else if s != [] {
      ContainsIffOccurs(s[1..], t);
      if Contains(s[1..], t) {
        var i: nat :| OccursAt(s[1..], t, i);
        assert s[i + 1..i + 1 + |t|] == s[1..][i..i + |t|];
        assert OccursAt(s, t, i + 1);
      }
      if exists i: nat :: OccursAt(s, t, i) {
        var i: nat :| OccursAt(s, t, i);
        if i > 0 {
          assert s[1..][i - 1..i - 1 + |t|] == s[i..i + |t|];
          assert OccursAt(s[1..], t, i - 1);
        }
      }
    }
  }

  /** The number of body characters a card preview shows. */
  const PreviewLength := 150

  /** The characters the preview strips: `#`, `*` and backtick. */
  predicate IsMarkupChar(c: char) { c == '#' || c == '*' || c == '`' }

  function Min(a: int, b: int): int { if a <= b then a else b }

  /** The test the preview keeps a character by. */
  function Kept(): char -> bool
  {
    c => !IsMarkupChar(c)
  }

  /** Stripping a prefix keeps one character per non-markup position. */
  lemma StrippedLength(body: string, n: nat)
    requires n <= |body|
    ensures |Filter(body[..n], Kept())| == |set i | 0 <= i < n && !IsMarkupChar(body[i])|
  {
    FilterLengthIsPositionCount(body[..n], Kept());
    assert Positions(body[..n], Kept()) == set i | 0 <= i < n && !IsMarkupChar(body[i]);
  }

  /** The card preview: the first 150 characters, markup characters removed, then "...". */
  function Preview(body: string): (r: string)
    ensures |r| >= 3 && r[|r| - 3..] == "..."
    ensures |r| <= PreviewLength + 3
    ensures forall i :: 0 <= i < |r| - 3 ==> !IsMarkupChar(r[i])
    ensures IsSubsequence(r[..|r| - 3], body[..Min(PreviewLength, |body|)])
    ensures forall i :: 0 <= i < Min(PreviewLength, |body|) && !IsMarkupChar(body[i]) ==> body[i] in r[..|r| - 3]
    ensures |r| - 3 == |set i | 0 <= i < Min(PreviewLength, |body|) && !IsMarkupChar(body[i])|
  {
    var shown := body[..Min(PreviewLength, |body|)];
    var stripped := Filter(shown, Kept());
    FilterIsSubsequence(shown, Kept());
    FilterMembers(shown, Kept());
    StrippedLength(body, Min(PreviewLength, |body|));
    assert (stripped + "...")[..|stripped|] == stripped;
    stripped + "..."
  }

  /** A short body without markup characters is shown whole. */
  lemma PreviewOfPlainText(body: string)
    requires |body| <= PreviewLength
    requires forall i :: 0 <= i < |body| ==> !IsMarkupChar(body[i])
    ensures Preview(body) == body + "..."
  {
    assert body[..Min(PreviewLength, |body|)] == body;
    FilterAll(body, Kept());
  }
}
