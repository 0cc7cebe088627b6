/** The password-strength expression of the server validators:
    `^(?=.*\d)(?=.*[!@#$%^&*])(?=.*[a-z])(?=.*[A-Z]).{8,}$`, no flags. */
module Password {
  import opened Base

  /** The characters `.` does not match without the `s` flag. */
  predicate IsLineTerminator(c: char) {
    c == '\n' || c == '\r' || c == '\U{2028}' || c == '\U{2029}'
  }

  /** The four character classes the look-aheads demand. */
  datatype Class = Digit | Special | LowerCase | UpperCase

  predicate InClass(c: char, k: Class) {
    match k
    case Digit => '0' <= c <= '9'
    case Special => c in "!@#$%^&*"
    case LowerCase => 'a' <= c <= 'z'
    case UpperCase => 'A' <= c <= 'Z'
  }

  /** `t` matches `.*`. */
  predicate AllDots(t: string) {
    forall i :: 0 <= i < |t| ==> !IsLineTerminator(t[i])
  }

  /** `(?=.*X)` at the start: some character of class `k` is reached before
      any line terminator. */
  predicate LookAhead(s: string, k: Class) {
    exists n :: 0 <= n < |s| && AllDots(s[..n]) && InClass(s[n], k)
  }

  /** `strongRegex.test(s)`, after the expression's structure. */
  predicate StrongRegex(s: string) {
    && LookAhead(s, Digit)
    && LookAhead(s, Special)
    && LookAhead(s, LowerCase)
    && LookAhead(s, UpperCase)
    && Utf16Length(s) >= 8 && AllDots(s)
  }

  predicate Has(s: string, k: Class) {
    exists i :: 0 <= i < |s| && InClass(s[i], k)
  }

  /** The requirements in plain terms; `.{8,}` counts UTF-16 code units, so
      a character outside the Basic Multilingual Plane counts twice. */
  predicate Strong(s: string) {
    && Utf16Length(s) >= 8
    && AllDots(s)
    && Has(s, Digit) && Has(s, Special) && Has(s, LowerCase) && Has(s, UpperCase)
  }

  lemma LookAheadInLine(s: string, k: Class)
    requires AllDots(s)
    ensures LookAhead(s, k) <==> Has(s, k)
  {
    if Has(s, k) {
      var i :| 0 <= i < |s| && InClass(s[i], k);
      assert AllDots(s[..i]);
    }
  }

  /** The expression accepts exactly the strings of at least eight UTF-16 code
      units, no character a line terminator, with a digit, one of `!@#$%^&*`, an ASCII
      lower-case and an ASCII upper-case letter. */
  lemma StrongRegexMeaning(s: string)
    ensures StrongRegex(s) <==> Strong(s)
  {
    if AllDots(s) {
      LookAheadInLine(s, Digit);
      LookAheadInLine(s, Special);
      LookAheadInLine(s, LowerCase);
      LookAheadInLine(s, UpperCase);
    }
  }

  /** Fewer than eight code units are never enough. */
  lemma ShortRejected(s: string)
    requires Utf16Length(s) < 8
    ensures !StrongRegex(s)
  {
  }

  /** Seven characters can be enough when one of them lies outside the Basic
      Multilingual Plane. */
  lemma SevenAstralCharsAccepted()
    ensures |"Aa1!aa\U{1F600}"| == 7
    ensures StrongRegex("Aa1!aa\U{1F600}")
  {
    var s := "Aa1!aa\U{1F600}";
    assert Utf16Length(s[..6]) == 6;
    assert AllDots(s);
    assert Has(s, Digit) by { assert InClass(s[2], Digit); }
    assert Has(s, Special) by { assert InClass(s[3], Special); }
    assert Has(s, LowerCase) by { assert InClass(s[1], LowerCase); }
    assert Has(s, UpperCase) by { assert InClass(s[0], UpperCase); }
    StrongRegexMeaning(s);
  }

  /** Appending characters that are not line terminators keeps a strong
      password strong. */
  lemma AppendKeepsStrong(s: string, t: string)
    requires StrongRegex(s) && AllDots(t)
    ensures StrongRegex(s + t)
  {
    StrongRegexMeaning(s);
    var u := s + t;
    Utf16LengthAppend(s, t);
    assert forall i :: 0 <= i < |s| ==> u[i] == s[i];
    assert forall i :: |s| <= i < |u| ==> u[i] == t[i - |s|];
    StrongRegexMeaning(u);
  }

  /** A left-to-right scan for the four classes and for line terminators,
      with a count of code units, decides the expression. */
  method CheckPassword(s: string) returns (ok: bool)
    ensures ok <==> StrongRegex(s)
  {
    var digit, special, lower, upper, clean := false, false, false, false, true;
    var i := 0;
    while i < |s|
      invariant 0 <= i <= |s|
      invariant digit <==> Has(s[..i], Digit)
      invariant special <==> Has(s[..i], Special)
      invariant lower <==> Has(s[..i], LowerCase)
      invariant upper <==> Has(s[..i], UpperCase)
      invariant clean <==> AllDots(s[..i])
    {
      var c := s[i];
      assert s[..i + 1] == s[..i] + [c];
      digit := digit || InClass(c, Digit);
      special := special || InClass(c, Special);
      lower := lower || InClass(c, LowerCase);
      upper := upper || InClass(c, UpperCase);
      clean := clean && !IsLineTerminator(c);
      i := i + 1;
    }
    assert s[..i] == s;
    StrongRegexMeaning(s);
    var units := CountCodeUnits(s);
    ok := digit && special && lower && upper && clean && units >= 8;
  }
}
