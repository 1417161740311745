/**
 String primitives shared by the front-end rules: the JavaScript whitespace class (used both by
 `String.prototype.trim` and by the regular-expression class `\s`), trimming, splitting on a
 separator character, and replacing the first occurrence of a pattern, `$` patterns included.
 */
module Text {

  import opened Wrappers

  /** A JavaScript WhiteSpace or LineTerminator code point: the set `trim` removes and `\s` matches. */
  predicate IsSpace(c: char) {
    || c == '\t' || c == '\n' || c == '\U{000B}' || c == '\U{000C}' || c == '\r' || c == ' '
    || c == '\U{00A0}' || c == '\U{1680}'
    || ('\U{2000}' <= c <= '\U{200A}')
    || c == '\U{2028}' || c == '\U{2029}' || c == '\U{202F}' || c == '\U{205F}'
    || c == '\U{3000}' || c == '\U{FEFF}'
  }

  /** The regular-expression class `\d`: an ASCII decimal digit. */
  predicate IsDigit(c: char) {
    '0' <= c <= '9'
  }

  /** Every character of `s` is whitespace (vacuously true of the empty string). */
  predicate IsBlank(s: string) {
    forall k :: 0 <= k < |s| ==> IsSpace(s[k])
  }

  predicate AllDigits(s: string) {
    forall k :: 0 <= k < |s| ==> IsDigit(s[k])
  }

  /** `s` does not begin with whitespace. */
  predicate StartsSolid(s: string) {
    |s| == 0 || !IsSpace(s[0])
  }

  /** Removes the leading whitespace run; also what a leading `\s*` in a regular expression consumes. */
  function TrimStart(s: string): (r: string)
    ensures |r| <= |s| && r == s[|s| - |r|..]
    ensures IsBlank(s[..|s| - |r|])
    ensures StartsSolid(r)
  {
    if |s| > 0 && IsSpace(s[0]) then
      var t := s[1..];
      var r := TrimStart(t);
      BlankAfterSpace(s, t[..|t| - |r|]);
      r
    else
      s
  }

  /** A whitespace character followed by a blank run is a blank run. */
  lemma {:induction false} BlankAfterSpace(s: string, w: string)
    requires |w| < |s| && IsSpace(s[0]) && IsBlank(w) && w == s[1..][..|w|]
    ensures IsBlank(s[..|w| + 1])
  {
    var gone := s[..|w| + 1];
    forall k | 0 <= k < |gone| ensures IsSpace(gone[k]) {
      if k > 0 {
        assert gone[k] == w[k - 1];
      }
    }
  }

  /** Removes the trailing whitespace run. */
  function TrimEnd(s: string): (r: string)
    ensures |r| <= |s| && r == s[..|r|]
    ensures IsBlank(s[|r|..])
    ensures |r| == 0 || !IsSpace(r[|r| - 1])
  {
    if |s| > 0 && IsSpace(s[|s| - 1]) then
      var r := TrimEnd(s[..|s| - 1]);
      var t := s[..|s| - 1];
      var gone := s[|r|..];
      forall k | 0 <= k < |gone| ensures IsSpace(gone[k]) {
        if k < |gone| - 1 {
          assert gone[k] == t[|r|..][k];
        }
      }
      r
    else
      s
  }

  /** `String.prototype.trim`. */
  function Trim(s: string): string {
    TrimEnd(TrimStart(s))
  }

  /** What `trim` keeps lies between a whitespace prefix and a whitespace suffix, and neither of its
      ends is whitespace, which pins the two runs down as the longest ones. */
  lemma {:induction false} TrimIsMiddle(s: string)
    ensures |Trim(s)| <= |s|
    ensures exists i :: 0 <= i <= |s| - |Trim(s)| && IsBlank(s[..i]) && s[i..i + |Trim(s)|] == Trim(s)
                        && IsBlank(s[i + |Trim(s)|..])
    ensures StartsSolid(Trim(s)) && (|Trim(s)| == 0 || !IsSpace(Trim(s)[|Trim(s)| - 1]))
  {
    var t := TrimStart(s);
    var r := TrimEnd(t);
    MiddleOf(s, t, r);
    assert |r| > 0 ==> r[0] == t[0];
  }

  /** Removing a blank prefix and then a blank suffix leaves a middle slice between the two. */
  lemma {:induction false} MiddleOf(s: string, t: string, r: string)
    requires |t| <= |s| && t == s[|s| - |t|..] && IsBlank(s[..|s| - |t|])
    requires |r| <= |t| && r == t[..|r|] && IsBlank(t[|r|..])
    ensures var i := |s| - |t|;
      0 <= i <= |s| - |r| && IsBlank(s[..i]) && s[i..i + |r|] == r && IsBlank(s[i + |r|..])
  {
    var i := |s| - |t|;
    assert s[i..i + |r|] == r;
    assert s[i + |r|..] == t[|r|..];
  }

  /** A blank string trims to nothing from the start. */
  lemma {:induction false} TrimStartOfBlank(s: string)
    requires IsBlank(s)
    ensures TrimStart(s) == ""
  {
    if |s| > 0 {
      TrimStartOfBlank(s[1..]);
    }
  }

  /** `!s.trim()` in JavaScript, i.e. the trimmed string is empty, exactly when `s` is blank. */
  lemma TrimEmptyIffBlank(s: string)
    ensures Trim(s) == "" <==> IsBlank(s)
  {
    if IsBlank(s) {
      TrimStartOfBlank(s);
    }
    var t := TrimStart(s);
    var p := |s| - |t|;
    if Trim(s) == "" {
      assert IsBlank(t[0..]);
      assert t == [] by {
        assert t[0..] == t;
      }
      forall k | 0 <= k < |s| ensures IsSpace(s[k]) {
        assert s[k] == s[..p][k];
      }
    }
  }

  /** A whitespace run followed by a string that does not start with whitespace: trimming the start
      removes exactly that run. */
  lemma {:induction false} TrimStartOfSpacedPrefix(w: string, rest: string)
    requires IsBlank(w) && StartsSolid(rest)
    ensures TrimStart(w + rest) == rest
  {
    if |w| == 0 {
      assert w + rest == rest;
    } else {
      assert (w + rest)[1..] == w[1..] + rest;
      TrimStartOfSpacedPrefix(w[1..], rest);
    }
  }

  /** Number of leading ASCII digits: how much a greedy `^\d+` would consume. */
  function DigitRun(s: string): (n: nat)
    ensures n <= |s| && AllDigits(s[..n])
    ensures n == |s| || !IsDigit(s[n])
  {
    if |s| > 0 && IsDigit(s[0]) then
      var n := 1 + DigitRun(s[1..]);
      assert s[..n] == [s[0]] + s[1..][..n - 1];
      n
    else
      0
  }

  /** A run of digits followed by a non-digit: the greedy digit run is exactly that run. */
  lemma {:induction false} DigitRunOfDigitsThen(d: string, rest: string)
    requires AllDigits(d)
    requires |rest| == 0 || !IsDigit(rest[0])
    ensures DigitRun(d + rest) == |d|
  {
    if |d| == 0 {
      assert d + rest == rest;
    } else {
      assert (d + rest)[1..] == d[1..] + rest;
      DigitRunOfDigitsThen(d[1..], rest);
    }
  }

  /** Number of occurrences of `c` in `s`. */
  function Count(s: string, c: char): (n: nat)
    ensures n <= |s|
    ensures n == 0 <==> c !in s
  {
    if |s| == 0 then 0
    else (if s[0] == c then 1 else 0) + Count(s[1..], c)
  }

  lemma {:induction false} CountAppend(a: string, b: string, c: char)
    ensures Count(a + b, c) == Count(a, c) + Count(b, c)
  {
    if |a| == 0 {
      assert a + b == b;
    } else {
      assert (a + b)[1..] == a[1..] + b;
      CountAppend(a[1..], b, c);
    }
  }

  /** Exactly one occurrence of `c` in `s`, at position `i`, means `c` appears nowhere else. */
  lemma CountOneAt(s: string, c: char, i: nat)
    requires i < |s| && s[i] == c
    ensures Count(s, c) == 1 <==> (forall k :: 0 <= k < |s| && k != i ==> s[k] != c)
  {
    assert s == s[..i] + [c] + s[i + 1..];
    CountAppend(s[..i] + [c], s[i + 1..], c);
    CountAppend(s[..i], [c], c);
    if Count(s, c) == 1 {
      assert Count(s[..i], c) == 0 && Count(s[i + 1..], c) == 0;
      forall k | 0 <= k < |s| && k != i ensures s[k] != c {
        if k < i {
          assert s[k] == s[..i][k];
        } else {
          assert s[k] == s[i + 1..][k - i - 1];
        }
      }
    }
    if forall k :: 0 <= k < |s| && k != i ==> s[k] != c {
      assert c !in s[..i] by {
        forall k | 0 <= k < i ensures s[..i][k] != c { assert s[..i][k] == s[k]; }
      }
      var t := s[i + 1..];
      assert c !in t by {
        forall k | 0 <= k < |t| ensures t[k] != c { assert t[k] == s[i + 1 + k]; }
      }
    }
  }

  /** Position of the first occurrence of `c` in `s`. */
  function IndexOf(s: string, c: char): (i: nat)
    requires c in s
    ensures i < |s| && s[i] == c
    ensures forall k :: 0 <= k < i ==> s[k] != c
  {
    if s[0] == c then 0 else 1 + IndexOf(s[1..], c)
  }

  /** Joins pieces with a separator: the inverse of `Split`. */
  function Join(pieces: seq<string>, sep: char): string {
    if |pieces| == 0 then ""
    else if |pieces| == 1 then pieces[0]
    else pieces[0] + [sep] + Join(pieces[1..], sep)
  }

  /** `String.prototype.split` with a one-character separator: the maximal separator-free pieces,
      one more than there are separators. */
  function Split(s: string, sep: char): (pieces: seq<string>)
    ensures |pieces| == Count(s, sep) + 1
    ensures forall k :: 0 <= k < |pieces| ==> sep !in pieces[k]
    ensures Join(pieces, sep) == s
    decreases |s|
  {
    if sep !in s then
      [s]
    else
      var i := IndexOf(s, sep);
      var tail := Split(s[i + 1..], sep);
      assert s == s[..i] + [sep] + s[i + 1..];
      CountAppend(s[..i] + [sep], s[i + 1..], sep);
      CountAppend(s[..i], [sep], sep);
      assert sep !in s[..i];
      [s[..i]] + tail
  }

  /** `pat` occurs in `s` starting at position `k`. */
  predicate OccursAt(s: string, pat: string, k: nat) {
    k + |pat| <= |s| && s[k..k + |pat|] == pat
  }

  /** The first position at or after `from` where `pat` occurs in `s`, if any. */
  function FindFrom(s: string, pat: string, from: nat): (r: Option<nat>)
    ensures r.Some? ==> from <= r.value && OccursAt(s, pat, r.value)
    ensures r.Some? ==> forall k :: from <= k < r.value ==> !OccursAt(s, pat, k)
    ensures r.None? ==> forall k :: from <= k ==> !OccursAt(s, pat, k)
    decreases |s| - from
  {
    if from + |pat| > |s| then None
    else if s[from..from + |pat|] == pat then Some(from)
    else FindFrom(s, pat, from + 1)
  }

  /** The replacement text that `String.prototype.replace` inserts for a string pattern (the
      GetSubstitution operation of ECMA-262): `$$` is one dollar, `$&` the matched text, `` $` `` the
      text before the match and `$'` the text after it. Any other `$` stands for itself, a string
      pattern having no capture groups to refer to. */
  function Expand(rep: string, matched: string, before: string, after: string): (r: string)
    ensures '$' !in rep ==> r == rep
  {
    if |rep| == 0 then ""
    else if rep[0] == '$' && |rep| > 1 && rep[1] in "$&`'" then
      var piece := if rep[1] == '$' then "$" else if rep[1] == '&' then matched else if rep[1] == '`' then before else after;
      piece + Expand(rep[2..], matched, before, after)
    else
      var rest := Expand(rep[1..], matched, before, after);
      assert '$' !in rep ==> '$' !in rep[1..] by {
        assert forall k :: 0 <= k < |rep[1..]| ==> rep[1..][k] == rep[k + 1];
      }
      [rep[0]] + rest
  }

  /** `String.prototype.replace` with a string pattern: only the first occurrence is replaced. */
  function ReplaceFirst(s: string, pat: string, rep: string): (r: string)
    ensures (forall k :: !OccursAt(s, pat, k)) ==> r == s
  {
    match FindFrom(s, pat, 0)
    case Some(i) => s[..i] + Expand(rep, pat, s[..i], s[i + |pat|..]) + s[i + |pat|..]
    case None => s
  }

  /** When `pat` first occurs at position `i`, the expanded replacement is spliced in exactly there. */
  lemma ReplaceFirstAt(s: string, pat: string, rep: string, i: nat)
    requires OccursAt(s, pat, i)
    requires forall k :: 0 <= k < i ==> !OccursAt(s, pat, k)
    ensures ReplaceFirst(s, pat, rep) == s[..i] + Expand(rep, pat, s[..i], s[i + |pat|..]) + s[i + |pat|..]
  {
    var r := FindFrom(s, pat, 0);
    assert r.Some?;
    assert r.value == i;
  }

  /** The first occurrence is at `i` when the pattern's first character does not appear before `i`. */
  lemma ReplaceFirstAfterClearPrefix(s: string, pat: string, rep: string, i: nat)
    requires OccursAt(s, pat, i) && |pat| > 0 && pat[0] !in s[..i]
    ensures ReplaceFirst(s, pat, rep) == s[..i] + Expand(rep, pat, s[..i], s[i + |pat|..]) + s[i + |pat|..]
  {
    forall k | 0 <= k < i ensures !OccursAt(s, pat, k) {
      assert s[..i][k] == s[k];
      if k + |pat| <= |s| {
        assert s[k..k + |pat|][0] == s[k];
      }
    }
    ReplaceFirstAt(s, pat, rep, i);
  }

  /** The four templates of `Expand`, for every replacement read from the front: `$$`, `$&`, `` $` ``
      and `$'` give a dollar, the match, the text before it and the text after it. */
  lemma {:induction false} ExpandTemplates(t: string, matched: string, before: string, after: string)
    ensures Expand("$$" + t, matched, before, after) == "$" + Expand(t, matched, before, after)
    ensures Expand("$&" + t, matched, before, after) == matched + Expand(t, matched, before, after)
    ensures Expand("$`" + t, matched, before, after) == before + Expand(t, matched, before, after)
    ensures Expand("$'" + t, matched, before, after) == after + Expand(t, matched, before, after)
  {
    ExpandDollarPair('$', t, matched, before, after);
    ExpandDollarPair('&', t, matched, before, after);
    ExpandDollarPair('`', t, matched, before, after);
    ExpandDollarPair('\'', t, matched, before, after);
  }

  /** One step of `Expand` over a `$` followed by a template character. */
  lemma {:induction false} ExpandDollarPair(k: char, t: string, matched: string, before: string, after: string)
    requires k in "$&`'"
    ensures Expand(['$', k] + t, matched, before, after)
         == (if k == '$' then "$" else if k == '&' then matched else if k == '`' then before else after)
            + Expand(t, matched, before, after)
  {
    assert (['$', k] + t)[2..] == t;
  }

  /** Everything else in a replacement is literal: the empty replacement gives nothing, a `$` before
      any other character or at the end stays a dollar, and any other character stands for itself. */
  lemma {:induction false} ExpandLiterals(t: string, c: char, matched: string, before: string, after: string)
    ensures Expand("", matched, before, after) == ""
    ensures c !in "$&`'" ==> Expand(['$', c] + t, matched, before, after) == "$" + Expand([c] + t, matched, before, after)
    ensures Expand("$", matched, before, after) == "$"
    ensures c != '$' ==> Expand([c] + t, matched, before, after) == [c] + Expand(t, matched, before, after)
  {
    assert (['$', c] + t)[1..] == [c] + t;
    assert ([c] + t)[1..] == t;
    assert "$"[1..] == "";
  }

  /** A `$&` in the replacement repeats the matched text: `"abc".replace("b", "$&$&")` is "abbc",
      where a literal splice would give "a$&$&c". */
  lemma DollarAmpersandRepeatsMatch()
    ensures ReplaceFirst("abc", "b", "$&$&") == "abbc"
  {
    assert "abc"[1..2] == "b";
    ReplaceFirstAfterClearPrefix("abc", "b", "$&$&", 1);
    assert "$&$&"[2..] == "$&";
    assert Expand("$&", "b", "a", "c") == "b";
  }
}
