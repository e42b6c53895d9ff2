/** The footer's year: `footerText.textContent.replace('2025', currentYear)`.
    The current year is a parameter of the model. */
module FooterYear {
  import opened Wrappers

  /** `pat` occurs in `s` at index `i`. */
  predicate OccursAt(s: string, pat: string, i: nat) {
    i + |pat| <= |s| && s[i..i + |pat|] == pat
  }

  /** The first index at or after `from` where `pat` occurs in `s`. */
  function FindFrom(s: string, pat: string, from: nat): (r: Option<nat>)
    requires from <= |s|
    ensures r.Some? ==> from <= r.value && OccursAt(s, pat, r.value)
    ensures r.Some? ==> forall k :: from <= k < r.value ==> !OccursAt(s, pat, k)
    ensures r.None? ==> forall k :: from <= k <= |s| ==> !OccursAt(s, pat, k)
    decreases |s| - from
  {
    if OccursAt(s, pat, from) then Some(from)
    else if from == |s| then None
    else FindFrom(s, pat, from + 1)
  }

  /** `String.prototype.replace` with a string pattern and a replacement that
      holds no '$': only the first occurrence of `pat` is replaced. */
  function ReplaceFirst(s: string, pat: string, rep: string): (r: string)
    ensures FindFrom(s, pat, 0).None? ==> r == s
    ensures FindFrom(s, pat, 0).Some? ==>
      var i := FindFrom(s, pat, 0).value;
      && |r| == |s| - |pat| + |rep|
      && r[..i] == s[..i]
      && r[i..i + |rep|] == rep
      && r[i + |rep|..] == s[i + |pat|..]
  {
    match FindFrom(s, pat, 0)
    case None => s
    case Some(i) => s[..i] + rep + s[i + |pat|..]
  }

  /** The digit character for 0 <= d < 10. */
  function DigitChar(d: nat): (c: char)
    requires d < 10
    ensures '0' <= c <= '9'
  {
    "0123456789"[d]
  }

  /** The value of a string of decimal digits. */
  function DecimalValue(s: string): nat
    requires forall k :: 0 <= k < |s| ==> '0' <= s[k] <= '9'
  {
    if s == [] then 0
    else 10 * DecimalValue(s[..|s| - 1]) + ((s[|s| - 1] as int) - ('0' as int))
  }

  /** The year as JavaScript's number-to-string gives it: its decimal digits,
      without leading zeros. Digits hold no '$', so `replace` inserts them
      literally. */
  function YearString(year: nat): (r: string)
    ensures |r| > 0 && forall k :: 0 <= k < |r| ==> '0' <= r[k] <= '9'
    ensures DecimalValue(r) == year
    ensures |r| > 1 ==> r[0] != '0'
  {
    if year < 10 then [DigitChar(year)]
    else
      var prefix := YearString(year / 10);
      var r := prefix + [DigitChar(year % 10)];
      assert r[..|r| - 1] == prefix;
      r
  }

  /** The footer text once the page has loaded in `year`. */
  function FooterText(text: string, year: nat): string {
    ReplaceFirst(text, "2025", YearString(year))
  }

  /** Text without "2025" is left as it is. */
  lemma FooterWithoutTokenUnchanged(text: string, year: nat)
    requires forall k :: 0 <= k <= |text| ==> !OccursAt(text, "2025", k)
    ensures FooterText(text, year) == text
  {
    var r := FindFrom(text, "2025", 0);
    assert r.None?;
  }

  /** Text that reads `before + "2025" + after`, with no "2025" starting
      inside `before`, becomes `before + year + after`: everything around
      the first occurrence, later occurrences included, is kept. */
  lemma FooterReplacesFirstOccurrence(text: string, year: nat, i: nat)
    requires OccursAt(text, "2025", i)
    requires forall k :: 0 <= k < i ==> !OccursAt(text, "2025", k)
    ensures FooterText(text, year) == text[..i] + YearString(year) + text[i + 4..]
  {
    var r := FindFrom(text, "2025", 0);
    assert r == Some(i);
  }
}
