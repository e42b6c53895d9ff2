/** The contact form's e-mail check, `isValidEmail`, which tests the input
    against the regular expression ^[^\s@]+@[^\s@]+\.[^\s@]+$ . */
module EmailValidation {

  /** JavaScript's `\s`: the WhiteSpace and LineTerminator code points of
      ECMAScript (tab, vertical tab, form feed, space, no-break space, the
      byte order mark, the Zs separators, line feed, carriage return and the
      line and paragraph separators). */
  predicate IsWs(c: char) {
    || c == '\t' || c == '\n' || c == '\U{B}' || c == '\U{C}' || c == '\r' || c == ' '
    || c == '\U{A0}' || c == '\U{1680}' || ('\U{2000}' <= c <= '\U{200A}')
    || c == '\U{2028}' || c == '\U{2029}' || c == '\U{202F}' || c == '\U{205F}'
    || c == '\U{3000}' || c == '\U{FEFF}'
  }

  /** One character of the class [^\s@]. */
  predicate IsAtom(c: char) {
    !IsWs(c) && c != '@'
  }

  /** The whole of `t` matches [^\s@]+ . */
  predicate IsAtomRun(t: string) {
    |t| > 0 && forall k :: 0 <= k < |t| ==> IsAtom(t[k])
  }

  /** isValidEmail: the anchored regular expression accepts `email` when some
      choice of the '@' at index i and the '.' at index j splits it into three
      non-empty runs of [^\s@] (the choices the regex engine backtracks over). */
  predicate IsValidEmail(email: string) {
    exists i, j | 0 < i < j < |email| ::
      && email[i] == '@' && email[j] == '.'
      && IsAtomRun(email[..i]) && IsAtomRun(email[i + 1..j]) && IsAtomRun(email[j + 1..])
  }

  /** Number of occurrences of `c` in `s`. */
  function CountOf(s: string, c: char): (n: nat)
    ensures n == 0 <==> forall k :: 0 <= k < |s| ==> s[k] != c
    ensures n <= |s|
  {
    if s == [] then 0 else (if s[0] == c then 1 else 0) + CountOf(s[1..], c)
  }

  /** Index of the first `c` in `s`, or |s| when there is none. */
  function IndexOf(s: string, c: char): (i: nat)
    ensures i <= |s|
    ensures i < |s| <==> exists k :: 0 <= k < |s| && s[k] == c
    ensures i < |s| ==> s[i] == c
    ensures forall k :: 0 <= k < i ==> s[k] != c
  {
    if s == [] then 0
    else if s[0] == c then 0
    else 1 + IndexOf(s[1..], c)
  }

  /** `d` holds a '.' that is neither its first nor its last character. */
  predicate HasInnerDot(d: string) {
    exists k | 0 < k < |d| - 1 :: d[k] == '.'
  }

  /** The plain reading of the pattern: no whitespace, exactly one '@', a
      non-empty part before it, and a part after it with an inner '.'. */
  predicate WellFormedEmail(s: string) {
    && (forall k :: 0 <= k < |s| ==> !IsWs(s[k]))
    && CountOf(s, '@') == 1
    && var at := IndexOf(s, '@');
       && 0 < at < |s|
       && HasInnerDot(s[at + 1..])
  }

  lemma {:induction false} CountOfConcat(a: string, b: string, c: char)
    ensures CountOf(a + b, c) == CountOf(a, c) + CountOf(b, c)
  {
    if a == [] {
      assert a + b == b;
    } else {
      assert (a + b)[0] == a[0];
      assert (a + b)[1..] == a[1..] + b;
      CountOfConcat(a[1..], b, c);
    }
  }

  /** The regular expression accepts exactly the well-formed addresses. */
  lemma ValidEmailCharacterisation(s: string)
    ensures IsValidEmail(s) <==> WellFormedEmail(s)
  {
    if IsValidEmail(s) {
      var i, j :| 0 < i < j < |s| && s[i] == '@' && s[j] == '.'
        && IsAtomRun(s[..i]) && IsAtomRun(s[i + 1..j]) && IsAtomRun(s[j + 1..]);
      MatchIsWellFormed(s, i, j);
    }
    if WellFormedEmail(s) {
      WellFormedMatches(s);
    }
  }

  lemma MatchIsWellFormed(s: string, i: nat, j: nat)
    requires 0 < i < j < |s| && s[i] == '@' && s[j] == '.'
    requires IsAtomRun(s[..i]) && IsAtomRun(s[i + 1..j]) && IsAtomRun(s[j + 1..])
    ensures WellFormedEmail(s)
  {
    var d := s[i + 1..];
    forall k | 0 <= k < |s| ensures !IsWs(s[k]) && (k != i ==> s[k] != '@') {
      if k < i {
        assert s[k] == s[..i][k];
      } else if i < k < j {
        assert s[k] == s[i + 1..j][k - i - 1];
      } else if j < k {
        assert s[k] == s[j + 1..][k - j - 1];
      }
    }
    assert s == s[..i] + [s[i]] + d;
    CountOfConcat(s[..i] + [s[i]], d, '@');
    CountOfConcat(s[..i], [s[i]], '@');
    assert CountOf(s[..i], '@') == 0;
    assert forall k :: 0 <= k < |d| ==> d[k] == s[i + 1 + k];
    assert CountOf(d, '@') == 0;
    assert IndexOf(s, '@') == i;
    assert d[j - i - 1] == '.';
  }

  lemma WellFormedMatches(s: string)
    requires WellFormedEmail(s)
    ensures IsValidEmail(s)
  {
    var i := IndexOf(s, '@');
    var d := s[i + 1..];
    var k :| 0 < k < |d| - 1 && d[k] == '.';
    var j := i + 1 + k;
    assert s == s[..i] + [s[i]] + d;
    CountOfConcat(s[..i] + [s[i]], d, '@');
    CountOfConcat(s[..i], [s[i]], '@');
    assert CountOf(d, '@') == 0;
    assert IsAtomRun(s[..i]);
    assert s[i + 1..j] == d[..k];
    assert IsAtomRun(s[i + 1..j]);
    assert s[j + 1..] == d[k + 1..];
    assert IsAtomRun(s[j + 1..]);
    assert s[j] == '.';
  }

  /** Sample inputs the validator accepts and rejects. */
  lemma AcceptedExamples()
    ensures IsValidEmail("a@b.co")
    ensures IsValidEmail("first.last@sub.domain.com")
  {
    var s := "a@b.co";
    assert s[..1] == "a" && s[2..3] == "b" && s[4..] == "co";
    assert IsAtomRun(s[..1]) && IsAtomRun(s[2..3]) && IsAtomRun(s[4..]);
    assert s[1] == '@' && s[3] == '.';
    var t := "first.last@sub.domain.com";
    assert t[..10] == "first.last";
    assert t[11..21] == "sub.domain";
    assert t[22..] == "com";
    assert IsAtomRun(t[..10]) && IsAtomRun(t[11..21]) && IsAtomRun(t[22..]);
    assert t[10] == '@' && t[21] == '.';
  }

  lemma RejectedExamples()
    ensures !IsValidEmail("a@b")
    ensures !IsValidEmail("a@@b.com")
    ensures !IsValidEmail("@b.com")
    ensures !IsValidEmail("a@b.com ")
    ensures !IsValidEmail("")
  {
    ValidEmailCharacterisation("a@b");
    ValidEmailCharacterisation("a@@b.com");
    ValidEmailCharacterisation("@b.com");
    ValidEmailCharacterisation("a@b.com ");
    ValidEmailCharacterisation("");
    assert "a@b"[2..] == "b";
    assert IndexOf("a@b", '@') == 1;
    assert CountOf("a@@b.com", '@') == 2;
    assert IndexOf("@b.com", '@') == 0;
    assert "a@b.com "[7] == ' ';
  }
}
