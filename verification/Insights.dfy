/**
 The "Financial Insights" list: the report's advisory text is split on newlines, whitespace-only
 lines are dropped, and each remaining line loses a leading list number (`^\d+\.\s*`) and then a
 leading bullet (`^\s*-\s*`).
 */
module Insights {

  import opened Text

  /** The line starts with one or more ASCII digits followed by a `.`. */
  predicate HasListNumber(line: string) {
    exists k :: 0 < k < |line| && AllDigits(line[..k]) && line[k] == '.'
  }

  /** After some (possibly empty) whitespace, the line has a `-`. */
  predicate HasBullet(line: string) {
    exists k :: 0 <= k < |line| && IsBlank(line[..k]) && line[k] == '-'
  }

  /** `line.replace` with the pattern `^\d+\.\s*` and an empty replacement: the greedy digit run, the
      dot and the whitespace after it go. */
  function StripListNumber(line: string): (r: string)
    ensures |r| <= |line| && r == line[|line| - |r|..]
  {
    var n := DigitRun(line);
    if 0 < n < |line| && line[n] == '.' then TrimStart(line[n + 1..]) else line
  }

  /** The number strip changes a line exactly when the line starts with digits and a dot, and
      what it leaves does not start with whitespace. */
  lemma StripListNumberChangesIff(line: string)
    ensures HasListNumber(line) <==> StripListNumber(line) != line
    ensures StripListNumber(line) != line ==> StartsSolid(StripListNumber(line))
  {
    var n := DigitRun(line);
    if 0 < n < |line| && line[n] == '.' {
      assert |StripListNumber(line)| < |line|;
    } else {
      forall k | 0 <= k < n ensures IsDigit(line[k]) {
        assert line[..n][k] == line[k];
      }
      forall k | n < k <= |line| ensures !AllDigits(line[..k]) {
        assert line[..k][n] == line[n];
      }
    }
  }

  /** `line.replace` with the pattern `^\s*-\s*` and an empty replacement: leading whitespace, one
      `-`, and the whitespace after it go. */
  function StripBullet(line: string): string {
    var t := TrimStart(line);
    if |t| > 0 && t[0] == '-' then TrimStart(t[1..]) else line
  }

  /** The bullet strip only ever removes a prefix of the line. */
  lemma {:induction false} StripBulletIsSuffix(line: string)
    ensures |StripBullet(line)| <= |line| && StripBullet(line) == line[|line| - |StripBullet(line)|..]
  {
    var t := TrimStart(line);
    if |t| > 0 && t[0] == '-' {
      SuffixOfSuffix(line, t, t[1..]);
      SuffixOfSuffix(line, t[1..], TrimStart(t[1..]));
    }
  }

  /** The bullet strip changes a line exactly when a dash follows its leading whitespace, and what
      it leaves does not start with whitespace. */
  lemma StripBulletChangesIff(line: string)
    ensures HasBullet(line) <==> StripBullet(line) != line
    ensures StripBullet(line) != line ==> StartsSolid(StripBullet(line))
  {
    var t := TrimStart(line);
    var w := |line| - |t|;
    if |t| > 0 && t[0] == '-' {
      assert line[w] == '-';
      assert |StripBullet(line)| < |line|;
    } else {
      forall k | 0 <= k < w ensures IsSpace(line[k]) {
        assert line[..w][k] == line[k];
      }
      forall k | w < k <= |line| ensures !IsBlank(line[..k]) {
        assert line[..k][w] == line[w] == t[0];
      }
    }
  }

  /** The text a list item displays: numbers are stripped before bullets. */
  function CleanLine(line: string): string {
    StripBullet(StripListNumber(line))
  }

  /** Cleaning only ever removes a prefix of the line. */
  lemma {:induction false} CleanLineIsSuffix(line: string)
    ensures |CleanLine(line)| <= |line| && CleanLine(line) == line[|line| - |CleanLine(line)|..]
  {
    BulletAfterSuffix(line, StripListNumber(line));
  }

  /** Stripping a bullet from a suffix of `line` still leaves a suffix of `line`. */
  lemma {:induction false} BulletAfterSuffix(line: string, m: string)
    requires |m| <= |line| && m == line[|line| - |m|..]
    ensures |StripBullet(m)| <= |line| && StripBullet(m) == line[|line| - |StripBullet(m)|..]
  {
    StripBulletIsSuffix(m);
    SuffixOfSuffix(line, m, StripBullet(m));
  }

  /** A suffix of a suffix of `a` is a suffix of `a`. */
  lemma {:induction false} SuffixOfSuffix(a: string, b: string, c: string)
    requires |b| <= |a| && b == a[|a| - |b|..]
    requires |c| <= |b| && c == b[|b| - |c|..]
    ensures c == a[|a| - |c|..]
  {
    forall k | 0 <= k < |c| ensures c[k] == a[|a| - |c| + k] {
      assert c[k] == b[|b| - |c| + k];
    }
  }

  /** `.filter(line => line.trim())`: the lines holding a non-whitespace character, in order. */
  function NonBlankLines(lines: seq<string>): (kept: seq<string>)
    ensures |kept| <= |lines|
    ensures forall k :: 0 <= k < |kept| ==> !IsBlank(kept[k]) && kept[k] in lines
    ensures forall l :: l in lines && !IsBlank(l) ==> l in kept
  {
    if |lines| == 0 then []
    else
      TrimEmptyIffBlank(lines[0]);
      var rest := NonBlankLines(lines[1..]);
      if Trim(lines[0]) != "" then [lines[0]] + rest else rest
  }

  /** Filtering commutes with concatenation, so the kept lines keep their relative order. */
  lemma {:induction false} NonBlankLinesAppend(a: seq<string>, b: seq<string>)
    ensures NonBlankLines(a + b) == NonBlankLines(a) + NonBlankLines(b)
  {
    if |a| == 0 {
      assert a + b == b;
    } else {
      assert (a + b)[1..] == a[1..] + b;
      NonBlankLinesAppend(a[1..], b);
    }
  }

  /** The rendered list items for the report's `ai_insights` text. */
  function InsightItems(text: string): (items: seq<string>)
    ensures |items| == |NonBlankLines(Split(text, '\n'))|
    ensures |items| <= Count(text, '\n') + 1
    ensures forall k :: 0 <= k < |items| ==> items[k] == CleanLine(NonBlankLines(Split(text, '\n'))[k])
  {
    var kept := NonBlankLines(Split(text, '\n'));
    seq(|kept|, k requires 0 <= k < |kept| => CleanLine(kept[k]))
  }

  /** A text without newlines that is not blank is one item. */
  lemma SingleLineInsight(text: string)
    requires '\n' !in text && !IsBlank(text)
    ensures InsightItems(text) == [CleanLine(text)]
  {
    var lines := Split(text, '\n');
    assert lines == [text];
    assert lines[1..] == [];
    TrimEmptyIffBlank(text);
    assert NonBlankLines(lines) == [text];
  }

  /** `d. w rest` loses exactly the number, the dot and the whitespace. */
  lemma StripListNumberOf(d: string, w: string, rest: string)
    requires |d| > 0 && AllDigits(d) && IsBlank(w) && StartsSolid(rest)
    ensures StripListNumber(d + "." + w + rest) == rest
  {
    var line := d + "." + w + rest;
    var after := "." + w + rest;
    assert line == d + after;
    assert after[0] == '.' && !IsDigit('.');
    DigitRunOfDigitsThen(d, after);
    assert line[|d|] == '.';
    assert line[|d| + 1..] == w + rest;
    TrimStartOfSpacedPrefix(w, rest);
    assert StripListNumber(line) == TrimStart(line[|d| + 1..]);
  }

  /** `w - w' rest` loses the leading whitespace, the dash and the whitespace after it. */
  lemma StripBulletOf(w: string, w': string, rest: string)
    requires IsBlank(w) && IsBlank(w') && StartsSolid(rest)
    ensures StripBullet(w + "-" + w' + rest) == rest
  {
    var line := w + "-" + w' + rest;
    var t := "-" + w' + rest;
    assert line == w + t;
    assert t[0] == '-' && t[1..] == w' + rest;
    assert StartsSolid(t) by { assert !IsSpace('-'); }
    TrimStartOfSpacedPrefix(w, t);
    TrimStartOfSpacedPrefix(w', rest);
    assert TrimStart(line) == t;
    assert StripBullet(line) == TrimStart(t[1..]);
  }

  /** Whitespace before the digits protects the number, since the pattern is anchored at the start. */
  lemma IndentedNumberKept(line: string)
    requires |line| > 0 && IsSpace(line[0])
    ensures StripListNumber(line) == line
  {
    forall k | 0 < k <= |line| ensures !AllDigits(line[..k]) {
      assert line[..k][0] == line[0];
    }
    StripListNumberChangesIff(line);
  }

  /** A number followed by a bullet: the number strip leaves the bullet at the very start. */
  lemma StripListNumberBeforeBullet(d: string, w: string, w': string, rest: string)
    requires |d| > 0 && AllDigits(d) && IsBlank(w)
    ensures StripListNumber(d + "." + w + "-" + w' + rest) == "-" + w' + rest
  {
    var t := "-" + w' + rest;
    assert d + "." + w + "-" + w' + rest == d + "." + w + t;
    assert StartsSolid(t) by { assert t[0] == '-'; }
    StripListNumberOf(d, w, t);
  }

  /** A dash at the very start is a bullet. */
  lemma StripLeadingDash(w': string, rest: string)
    requires IsBlank(w') && StartsSolid(rest)
    ensures StripBullet("-" + w' + rest) == rest
  {
    var e: string := [];
    assert e + "-" + w' + rest == "-" + w' + rest;
    StripBulletOf(e, w', rest);
  }

  /** "1. - x" becomes "x": the number goes first, and the bullet it uncovers goes next. */
  lemma NumberThenBullet(d: string, w: string, w': string, rest: string)
    requires |d| > 0 && AllDigits(d) && IsBlank(w) && IsBlank(w') && StartsSolid(rest)
    ensures CleanLine(d + "." + w + "-" + w' + rest) == rest
  {
    StripListNumberBeforeBullet(d, w, w', rest);
    StripLeadingDash(w', rest);
  }

  /** "- 1. x" becomes "1. x": the number is not at the start when the bullet is checked for it,
      and the bullet strip does not look for numbers. */
  lemma BulletThenNumberKeepsNumber(w: string, w': string, d: string, rest: string)
    requires IsBlank(w) && IsBlank(w') && |d| > 0 && AllDigits(d)
    ensures CleanLine(w + "-" + w' + d + "." + rest) == d + "." + rest
  {
    var line := w + "-" + w' + d + "." + rest;
    assert !IsDigit(line[0]) by {
      if |w| > 0 {
        assert line[0] == w[0];
      } else {
        assert line[0] == '-';
      }
    }
    forall k | 0 < k <= |line| ensures !AllDigits(line[..k]) {
      assert line[..k][0] == line[0];
    }
    StripListNumberChangesIff(line);
    assert line == w + "-" + w' + (d + "." + rest);
    assert StartsSolid(d + "." + rest) by {
      assert (d + "." + rest)[0] == d[0];
    }
    StripBulletOf(w, w', d + "." + rest);
  }

  /** A line with neither a leading number nor a leading bullet is shown exactly as written,
      trailing whitespace included. */
  lemma PlainLineUnchanged(line: string)
    requires !HasListNumber(line) && !HasBullet(line)
    ensures CleanLine(line) == line
  {
    StripListNumberChangesIff(line);
    StripBulletChangesIff(line);
  }
}
