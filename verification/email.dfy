/** The e-mail grammar shared by the server validators and the login form:
    `^([A-Z0-9_+-]+\.?)*[A-Z0-9_+-]@([A-Z0-9][A-Z0-9-]*\.)+[A-Z]{2,}$` with
    the `i` flag. The recogniser is written after the expression's own
    structure; the lemmas below give the flat description of what it
    accepts. Under the `i` flag without `u`, a letter class matches the ASCII
    letters of either case and no other character. */
module Email {
  import opened Base

  /** `[A-Z]` under the `i` flag. */
  predicate IsLetter(c: char) { 'A' <= c <= 'Z' || 'a' <= c <= 'z' }

  /** `[A-Z0-9]`. */
  predicate IsAlnum(c: char) { IsLetter(c) || '0' <= c <= '9' }

  /** `[A-Z0-9_+-]`, the local-part word characters. */
  predicate IsWord(c: char) { IsAlnum(c) || c == '_' || c == '+' || c == '-' }

  /** `[A-Z0-9-]`. */
  predicate IsLabelChar(c: char) { IsAlnum(c) || c == '-' }

  /** One repetition of `([A-Z0-9_+-]+\.?)`. */
  predicate Group(g: string) {
    && |g| >= 1
    && (forall i :: 0 <= i < |g| - 1 ==> IsWord(g[i]))
    && (IsWord(g[|g| - 1]) || (|g| >= 2 && g[|g| - 1] == '.'))
  }

  /** `([A-Z0-9_+-]+\.?)*`. */
  predicate Groups(s: string)
    decreases |s|
  {
    |s| == 0 || exists k :: 0 < k <= |s| && Group(s[..k]) && Groups(s[k..])
  }

  /** The part before `@`: `([A-Z0-9_+-]+\.?)*[A-Z0-9_+-]`. */
  predicate LocalPart(s: string) {
    |s| >= 1 && IsWord(s[|s| - 1]) && Groups(s[..|s| - 1])
  }

  /** One repetition of `([A-Z0-9][A-Z0-9-]*\.)`. */
  predicate Label(l: string) {
    && |l| >= 2
    && IsAlnum(l[0])
    && (forall i :: 1 <= i < |l| - 1 ==> IsLabelChar(l[i]))
    && l[|l| - 1] == '.'
  }

  /** `([A-Z0-9][A-Z0-9-]*\.)+`. */
  predicate Labels(s: string)
    decreases |s|
  {
    exists k :: 0 < k <= |s| && Label(s[..k]) && (k == |s| || Labels(s[k..]))
  }

  /** `[A-Z]{2,}`. */
  predicate TopLevel(t: string) {
    |t| >= 2 && forall i :: 0 <= i < |t| ==> IsLetter(t[i])
  }

  /** The part after `@`. */
  predicate DomainPart(s: string) {
    exists k :: 0 < k < |s| && Labels(s[..k]) && TopLevel(s[k..])
  }

  /** `emailRegex.test(s)`. */
  predicate EmailRegex(s: string) {
    exists k :: 0 <= k < |s| && s[k] == '@' && LocalPart(s[..k]) && DomainPart(s[k + 1..])
  }

  // ---- The flat descriptions ----

  /** A possibly empty run of groups: word characters and dots, starting
      with a word character, never two dots in a row. */
  predicate GroupsShape(s: string) {
    && (forall i :: 0 <= i < |s| ==> IsWord(s[i]) || s[i] == '.')
    && (|s| > 0 ==> IsWord(s[0]))
    && (forall i :: 0 <= i < |s| - 1 ==> !(s[i] == '.' && s[i + 1] == '.'))
  }

  /** The local part: non-empty, word characters and dots only, neither
      starting nor ending with a dot, never two dots in a row. */
  predicate LocalShape(s: string) {
    && |s| >= 1
    && (forall i :: 0 <= i < |s| ==> IsWord(s[i]) || s[i] == '.')
    && s[0] != '.'
    && s[|s| - 1] != '.'
    && (forall i :: 0 <= i < |s| - 1 ==> !(s[i] == '.' && s[i + 1] == '.'))
  }

  /** A run of labels: letters, digits, hyphens and dots, starting with a
      letter or digit, ending with a dot, every other dot followed by a
      letter or digit. */
  predicate LabelsShape(p: string) {
    && |p| >= 2
    && IsAlnum(p[0])
    && p[|p| - 1] == '.'
    && (forall i :: 0 <= i < |p| ==> IsLabelChar(p[i]) || p[i] == '.')
    && (forall i :: 0 <= i < |p| - 1 && p[i] == '.' ==> IsAlnum(p[i + 1]))
  }

  /** The domain: letters, digits, hyphens and dots, starting with a letter
      or digit, every dot followed by a letter or digit, and after the last
      dot at least two letters. */
  predicate DomainShape(s: string) {
    && |s| > 0
    && IsAlnum(s[0])
    && (forall i :: 0 <= i < |s| ==> IsLabelChar(s[i]) || s[i] == '.')
    && (forall i :: 0 <= i < |s| && s[i] == '.' ==> i + 1 < |s| && IsAlnum(s[i + 1]))
    && exists d :: 1 <= d && d + 2 < |s| && s[d] == '.' && forall i :: d < i < |s| ==> IsLetter(s[i])
  }

  /** A group in front of a run of groups makes a run of groups. */
  lemma GroupThenShape(g: string, r: string)
    requires Group(g) && GroupsShape(r)
    ensures GroupsShape(g + r)
  {
    var s := g + r;
    var k := |g|;
    forall i | 0 <= i < |s|
      ensures IsWord(s[i]) || s[i] == '.'
    {
      if i < k { assert s[i] == g[i]; } else { assert s[i] == r[i - k]; }
    }
    forall i | 0 <= i < |s| - 1
      ensures !(s[i] == '.' && s[i + 1] == '.')
    {
      if i + 1 < k {
        assert s[i] == g[i];
      } else if i + 1 == k {
        assert s[i + 1] == r[0];
      } else {
        assert s[i] == r[i - k] && s[i + 1] == r[i - k + 1];
      }
    }
    assert s[0] == g[0];
  }

  lemma {:induction false} GroupsToShape(s: string)
    requires Groups(s)
    ensures GroupsShape(s)
    decreases |s|
  {
    if |s| > 0 {
      var k :| 0 < k <= |s| && Group(s[..k]) && Groups(s[k..]);
      GroupsToShape(s[k..]);
      GroupThenShape(s[..k], s[k..]);
      assert s == s[..k] + s[k..];
    }
  }

  lemma {:induction false} ShapeToGroups(s: string)
    requires GroupsShape(s)
    ensures Groups(s)
    decreases |s|
  {
    if |s| > 0 {
      var k := if |s| >= 2 && s[1] == '.' then 2 else 1;
      var r := s[k..];
      assert Group(s[..k]);
      if |r| > 0 {
        assert r[0] == s[k];
        if k == 2 {
          assert s[2] != '.';
        }
      }
      assert GroupsShape(r) by {
        forall i | 0 <= i < |r| - 1
          ensures !(r[i] == '.' && r[i + 1] == '.')
        {
          assert r[i] == s[k + i] && r[i + 1] == s[k + i + 1];
        }
      }
      ShapeToGroups(r);
    }
  }

  /** The local part of the expression accepts exactly the flat description. */
  lemma LocalPartShape(s: string)
    ensures LocalPart(s) <==> LocalShape(s)
  {
    if |s| >= 1 {
      var n := |s| - 1;
      var p := s[..n];
      assert forall i :: 0 <= i < n ==> p[i] == s[i];
      if LocalPart(s) {
        GroupsToShape(p);
      }
      if LocalShape(s) {
        ShapeToGroups(p);
      }
    }
  }

  /** A label in front of a run of labels makes a run of labels. */
  lemma LabelThenShape(l: string, r: string)
    requires Label(l) && LabelsShape(r)
    ensures LabelsShape(l + r)
  {
    var s := l + r;
    var k := |l|;
    forall i | 0 <= i < |s|
      ensures IsLabelChar(s[i]) || s[i] == '.'
    {
      if i < k { assert s[i] == l[i]; } else { assert s[i] == r[i - k]; }
    }
    forall i | 0 <= i < k - 1
      ensures s[i] != '.'
    {
      assert s[i] == l[i];
    }
    forall i | 0 <= i < |s| - 1 && s[i] == '.'
      ensures IsAlnum(s[i + 1])
    {
      if i + 1 < k {
        assert false;
      } else if i + 1 == k {
        assert s[i + 1] == r[0];
      } else {
        assert s[i] == r[i - k] && s[i + 1] == r[i - k + 1];
      }
    }
  }

  lemma {:induction false} LabelsToShape(s: string)
    requires Labels(s)
    ensures LabelsShape(s)
    decreases |s|
  {
    var k :| 0 < k <= |s| && Label(s[..k]) && (k == |s| || Labels(s[k..]));
    if k == |s| {
      assert s == s[..k];
    } else {
      LabelsToShape(s[k..]);
      LabelThenShape(s[..k], s[k..]);
      assert s == s[..k] + s[k..];
    }
  }

  lemma {:induction false} ShapeToLabels(s: string)
    requires LabelsShape(s)
    ensures Labels(s)
    decreases |s|
  {
    var k := IndexOf(s, '.') + 1;
    var l := s[..k];
    assert Label(l);
    if k < |s| {
      var r := s[k..];
      assert r[0] == s[k];
      assert r[|r| - 1] == s[|s| - 1];
      assert LabelsShape(r) by {
        forall i | 0 <= i < |r|
          ensures IsLabelChar(r[i]) || r[i] == '.'
        {
          assert r[i] == s[k + i];
        }
        forall i | 0 <= i < |r| - 1 && r[i] == '.'
          ensures IsAlnum(r[i + 1])
        {
          assert r[i] == s[k + i] && r[i + 1] == s[k + i + 1];
        }
      }
      ShapeToLabels(r);
    }
  }

  /** A run of labels followed by a top-level name makes a domain. */
  lemma LabelsThenTop(p: string, t: string)
    requires LabelsShape(p) && TopLevel(t)
    ensures DomainShape(p + t)
  {
    var s := p + t;
    var k := |p|;
    forall i | 0 <= i < |s|
      ensures IsLabelChar(s[i]) || s[i] == '.'
    {
      if i < k { assert s[i] == p[i]; } else { assert s[i] == t[i - k]; }
    }
    forall i | k <= i < |s|
      ensures IsLetter(s[i])
    {
      assert s[i] == t[i - k];
    }
    forall i | 0 <= i < k && s[i] == '.'
      ensures i + 1 < |s| && IsAlnum(s[i + 1])
    {
      if i + 1 < k {
        assert s[i] == p[i] && s[i + 1] == p[i + 1];
      }
    }
    assert s[0] == p[0];
    assert s[k - 1] == '.';
  }

  lemma DomainPartToShape(s: string)
    requires DomainPart(s)
    ensures DomainShape(s)
  {
    var k :| 0 < k < |s| && Labels(s[..k]) && TopLevel(s[k..]);
    LabelsToShape(s[..k]);
    LabelsThenTop(s[..k], s[k..]);
    assert s == s[..k] + s[k..];
  }

  lemma ShapeToDomainPart(s: string)
    requires DomainShape(s)
    ensures DomainPart(s)
  {
    var d :| 1 <= d && d + 2 < |s| && s[d] == '.' && forall i :: d < i < |s| ==> IsLetter(s[i]);
    var k := d + 1;
    var p, t := s[..k], s[k..];
    assert LabelsShape(p) by {
      forall i | 0 <= i < |p| - 1 && p[i] == '.'
        ensures IsAlnum(p[i + 1])
      {
        assert p[i] == s[i] && p[i + 1] == s[i + 1];
      }
    }
    ShapeToLabels(p);
    assert TopLevel(t) by {
      forall i | 0 <= i < |t|
        ensures IsLetter(t[i])
      {
        assert t[i] == s[k + i];
      }
    }
  }

  /** The domain part of the expression accepts exactly the flat description. */
  lemma DomainPartShape(s: string)
    ensures DomainPart(s) <==> DomainShape(s)
  {
    if DomainPart(s) {
      DomainPartToShape(s);
    }
    if DomainShape(s) {
      ShapeToDomainPart(s);
    }
  }

  /** The whole expression: an `@` with a local part before it and a domain
      after it, each in its flat description. */
  lemma EmailShape(s: string)
    ensures EmailRegex(s) <==>
              exists k :: 0 <= k < |s| && s[k] == '@' && LocalShape(s[..k]) && DomainShape(s[k + 1..])
  {
    forall k | 0 <= k < |s|
      ensures LocalPart(s[..k]) <==> LocalShape(s[..k])
      ensures DomainPart(s[k + 1..]) <==> DomainShape(s[k + 1..])
    {
      LocalPartShape(s[..k]);
      DomainPartShape(s[k + 1..]);
    }
  }

  predicate NoAt(s: string) {
    forall j :: 0 <= j < |s| ==> s[j] != '@'
  }

  lemma LocalPartNoAt(s: string)
    requires LocalPart(s)
    ensures NoAt(s)
  {
    LocalPartShape(s);
  }

  lemma DomainPartNoAt(s: string)
    requires DomainPart(s)
    ensures NoAt(s)
  {
    DomainPartToShape(s);
  }

  /** An accepted address has exactly one `@`. */
  lemma SingleAt(s: string)
    requires EmailRegex(s)
    ensures exists k :: 0 <= k < |s| && s[k] == '@' && forall j :: 0 <= j < |s| && s[j] == '@' ==> j == k
  {
    var k :| 0 <= k < |s| && s[k] == '@' && LocalPart(s[..k]) && DomainPart(s[k + 1..]);
    var before, after := s[..k], s[k + 1..];
    LocalPartNoAt(before);
    DomainPartNoAt(after);
    forall j | 0 <= j < k
      ensures s[j] != '@'
    {
      assert s[j] == before[j];
    }
    forall j | k < j < |s|
      ensures s[j] != '@'
    {
      assert s[j] == after[j - k - 1];
    }
  }

  // ---- Case-insensitivity ----

  function LowerChar(c: char): char {
    if 'A' <= c <= 'Z' then (c as int + 32) as char else c
  }

  /** ASCII lower-casing. */
  function Lower(s: string): (r: string)
    ensures |r| == |s|
    ensures forall i :: 0 <= i < |s| ==> r[i] == LowerChar(s[i])
  {
    seq(|s|, i requires 0 <= i < |s| => LowerChar(s[i]))
  }

  lemma LowerKeepsClasses(c: char)
    ensures IsLetter(LowerChar(c)) == IsLetter(c)
    ensures IsAlnum(LowerChar(c)) == IsAlnum(c)
    ensures IsWord(LowerChar(c)) == IsWord(c)
    ensures IsLabelChar(LowerChar(c)) == IsLabelChar(c)
    ensures (LowerChar(c) == '.') == (c == '.')
    ensures (LowerChar(c) == '@') == (c == '@')
  {
  }

  lemma LowerClasses(s: string)
    ensures forall i :: 0 <= i < |s| ==>
              && IsLetter(Lower(s)[i]) == IsLetter(s[i]) && IsAlnum(Lower(s)[i]) == IsAlnum(s[i])
              && IsWord(Lower(s)[i]) == IsWord(s[i]) && IsLabelChar(Lower(s)[i]) == IsLabelChar(s[i])
              && (Lower(s)[i] == '.') == (s[i] == '.')
  {
    forall i | 0 <= i < |s| {
      LowerKeepsClasses(s[i]);
    }
  }

  lemma LowerLocalShape(s: string)
    ensures LocalShape(Lower(s)) == LocalShape(s)
  {
    LowerClasses(s);
  }

  lemma LowerDomainShape(s: string)
    ensures DomainShape(Lower(s)) == DomainShape(s)
  {
    var t := Lower(s);
    LowerClasses(s);
    if DomainShape(s) {
      var d :| 1 <= d && d + 2 < |s| && s[d] == '.' && forall i :: d < i < |s| ==> IsLetter(s[i]);
      assert t[d] == '.';
    }
    if DomainShape(t) {
      var d :| 1 <= d && d + 2 < |t| && t[d] == '.' && forall i :: d < i < |t| ==> IsLetter(t[i]);
      assert s[d] == '.';
    }
  }

  lemma LowerSplit(s: string, k: nat)
    requires k < |s|
    ensures (Lower(s)[k] == '@') == (s[k] == '@')
    ensures LocalShape(Lower(s)[..k]) == LocalShape(s[..k])
    ensures DomainShape(Lower(s)[k + 1..]) == DomainShape(s[k + 1..])
  {
    LowerKeepsClasses(s[k]);
    assert Lower(s)[..k] == Lower(s[..k]);
    assert Lower(s)[k + 1..] == Lower(s[k + 1..]);
    LowerLocalShape(s[..k]);
    LowerDomainShape(s[k + 1..]);
  }

  /** The `i` flag: an address is accepted exactly when its lower-cased form is. */
  lemma CaseInsensitive(s: string)
    ensures EmailRegex(Lower(s)) <==> EmailRegex(s)
  {
    var t := Lower(s);
    EmailShape(s);
    EmailShape(t);
    forall k | 0 <= k < |s|
      ensures (t[k] == '@') == (s[k] == '@')
      ensures LocalShape(t[..k]) == LocalShape(s[..k])
      ensures DomainShape(t[k + 1..]) == DomainShape(s[k + 1..])
    {
      LowerSplit(s, k);
    }
  }
}
