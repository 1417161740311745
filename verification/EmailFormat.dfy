/**
 The registration form's email check, `/^[^\s@]+@[^\s@]+\.[^\s@]+$/`, and a plain description of the
 strings it accepts: no whitespace, exactly one `@`, something before it, and a `.` after it that is
 neither the first nor the last character of the domain part.
 */
module EmailFormat {

  import opened Text

  /** The class `[^\s@]`. */
  predicate Plain(c: char) {
    !IsSpace(c) && c != '@'
  }

  predicate AllPlain(t: string) {
    forall k :: 0 <= k < |t| ==> Plain(t[k])
  }

  /** The regular expression, matched against the whole string: `s` is `A @ B . C` with `A`, `B`
      and `C` non-empty runs of `[^\s@]`. Since `.` is itself in `[^\s@]`, any dot of the domain
      part may serve as the separator. */
  predicate MatchesEmailPattern(s: string) {
    exists i, j :: 0 < i && i + 1 < j && j + 1 < |s| && s[i] == '@' && s[j] == '.'
      && AllPlain(s[..i]) && AllPlain(s[i + 1..j]) && AllPlain(s[j + 1..])
  }

  predicate NoSpace(s: string) {
    forall k :: 0 <= k < |s| ==> !IsSpace(s[k])
  }

  /** A `.` strictly inside `d`: neither its first nor its last character. */
  predicate HasInnerDot(d: string) {
    exists k :: 0 < k < |d| - 1 && d[k] == '.'
  }

  /** The accepted shape stated field by field. */
  predicate WellShapedEmail(s: string) {
    && NoSpace(s)
    && Count(s, '@') == 1
    && var at := IndexOf(s, '@');
       at > 0 && HasInnerDot(s[at + 1..])
  }

  /** A match of the regular expression, split at `@` position `i` and dot position `j`, has the
      well-shaped form with `i` as the sole `@`. */
  lemma PatternGivesShape(s: string, i: nat, j: nat)
    requires 0 < i && i + 1 < j && j + 1 < |s| && s[i] == '@' && s[j] == '.'
    requires AllPlain(s[..i]) && AllPlain(s[i + 1..j]) && AllPlain(s[j + 1..])
    ensures WellShapedEmail(s)
  {
    forall k | 0 <= k < |s| && k != i && k != j ensures Plain(s[k]) {
      if k < i {
        assert s[k] == s[..i][k];
      } else if k < j {
        assert s[k] == s[i + 1..j][k - i - 1];
      } else {
        assert s[k] == s[j + 1..][k - j - 1];
      }
    }
    assert NoSpace(s);
    CountOneAt(s, '@', i);
    assert IndexOf(s, '@') == i;
    var d := s[i + 1..];
    assert d[j - i - 1] == '.';
    assert HasInnerDot(d);
  }

  /** A well-shaped address splits the way the regular expression needs. */
  lemma ShapeGivesPattern(s: string)
    requires WellShapedEmail(s)
    ensures MatchesEmailPattern(s)
  {
    var i := IndexOf(s, '@');
    var d := s[i + 1..];
    var k :| 0 < k < |d| - 1 && d[k] == '.';
    var j := i + 1 + k;
    CountOneAt(s, '@', i);
    assert s[j] == '.';
    var a, b, c := s[..i], s[i + 1..j], s[j + 1..];
    forall m | 0 <= m < |a| ensures Plain(a[m]) {
      assert a[m] == s[m];
    }
    forall m | 0 <= m < |b| ensures Plain(b[m]) {
      assert b[m] == s[i + 1 + m];
    }
    forall m | 0 <= m < |c| ensures Plain(c[m]) {
      assert c[m] == s[j + 1 + m];
    }
  }

  /** The regular expression accepts exactly the well-shaped addresses. */
  lemma EmailPatternIff(s: string)
    ensures MatchesEmailPattern(s) <==> WellShapedEmail(s)
  {
    if MatchesEmailPattern(s) {
      var i, j :| 0 < i && i + 1 < j && j + 1 < |s| && s[i] == '@' && s[j] == '.'
        && AllPlain(s[..i]) && AllPlain(s[i + 1..j]) && AllPlain(s[j + 1..]);
      PatternGivesShape(s, i, j);
    }
    if WellShapedEmail(s) {
      ShapeGivesPattern(s);
    }
  }

  /** A well-shaped address holds a non-whitespace character (its `@`). */
  lemma WellShapedIsNotBlank(s: string)
    ensures WellShapedEmail(s) ==> !IsBlank(s)
  {
    if WellShapedEmail(s) {
      var at := IndexOf(s, '@');
      assert s[at] == '@';
    }
  }
}
