/**
 * The Dungeon World roll helpers of the game: the 2d6 + stat roll (the dice
 * are inputs here), the reading of a total as a full success, a partial
 * success or a failure, and the text clean-up that `extractJson` performs
 * before handing a model's reply to `JSON.parse`.
 */
module Rolls {
  import Common

  datatype Tier = Full | Partial | Failure

  /** `interpretRoll(total)`: 10 and up is full, 7 to 9 partial, 6 and below failure. */
  function InterpretRoll(total: int): (t: Tier)
    ensures t == Full <==> total >= 10
    ensures t == Partial <==> 7 <= total <= 9
    ensures t == Failure <==> total <= 6
  {
    if total >= 10 then Full
    else if total >= 7 then Partial
    else Failure
  }

  /** How good a tier is. */
  function Rank(t: Tier): nat {
    match t
    case Failure => 0
    case Partial => 1
    case Full => 2
  }

  /** A higher total never reads as a worse tier. */
  lemma InterpretRollMonotone(a: int, b: int)
    requires a <= b
    ensures Rank(InterpretRoll(a)) <= Rank(InterpretRoll(b))
  {
  }

  /** One six-sided die. */
  type Die = d: int | 1 <= d <= 6 witness 1

  datatype Roll = Roll(total: int, dice: (Die, Die))

  /** `roll2d6PlusStat(stat)`, with the two dice drawn by the caller. */
  function Roll2d6PlusStat(stat: int, d1: Die, d2: Die): (r: Roll)
    ensures r.dice.0 == d1 && r.dice.1 == d2
    ensures r.total == d1 + d2 + stat
    ensures stat + 2 <= r.total <= stat + 12
  {
    Roll(d1 + d2 + stat, (d1, d2))
  }

  /** With a stat of 8 or more every roll succeeds fully; with -6 or less every roll fails. */
  lemma StatDecidesExtremes(stat: int, d1: Die, d2: Die)
    ensures stat >= 8 ==> InterpretRoll(Roll2d6PlusStat(stat, d1, d2).total) == Full
    ensures stat <= -6 ==> InterpretRoll(Roll2d6PlusStat(stat, d1, d2).total) == Failure
  {
  }

  /**
   * The whitespace `trim` and the regular expression class `\s` remove; the
   * full Unicode set is not modelled.
   */
  predicate IsSpace(c: char) {
    c == ' ' || c == '\t' || c == '\n' || c == '\r' || c == '\U{000B}' || c == '\U{000C}'
  }

  /** The index of the first character that is not whitespace, at or after `i`. */
  function SkipSpace(s: string, i: nat): (j: nat)
    requires i <= |s|
    ensures i <= j <= |s|
    ensures forall k :: i <= k < j ==> IsSpace(s[k])
    ensures j < |s| ==> !IsSpace(s[j])
    decreases |s| - i
  {
    if i < |s| && IsSpace(s[i]) then SkipSpace(s, i + 1) else i
  }

  /** The index just past the last character that is not whitespace, at or before `j`. */
  function SkipSpaceBack(s: string, i: nat, j: nat): (k: nat)
    requires i <= j <= |s|
    ensures i <= k <= j
    ensures forall m :: k <= m < j ==> IsSpace(s[m])
    ensures k > i ==> !IsSpace(s[k - 1])
    decreases j - i
  {
    if j > i && IsSpace(s[j - 1]) then SkipSpaceBack(s, i, j - 1) else j
  }

  /**
   * Where `trim` cuts `s`: everything before the start and from the end on is
   * whitespace, and a non-empty middle starts and ends with a non-space.
   */
  function TrimBounds(s: string): (b: (nat, nat))
    ensures b.0 <= b.1 <= |s|
    ensures forall k :: 0 <= k < b.0 ==> IsSpace(s[k])
    ensures forall k :: b.1 <= k < |s| ==> IsSpace(s[k])
    ensures b.0 < b.1 ==> !IsSpace(s[b.0]) && !IsSpace(s[b.1 - 1])
  {
    var i := SkipSpace(s, 0);
    (i, SkipSpaceBack(s, i, |s|))
  }

  /** `s.trim()`: `s` without its leading and trailing whitespace. */
  function Trim(s: string): (t: string)
    ensures t == s[TrimBounds(s).0..TrimBounds(s).1]
    ensures t != [] ==> !IsSpace(t[0]) && !IsSpace(t[|t| - 1])
  {
    var b := TrimBounds(s);
    s[b.0..b.1]
  }

  /** Trimming twice trims nothing more. */
  lemma TrimIdempotent(s: string)
    ensures Trim(Trim(s)) == Trim(s)
  {
    var t := Trim(s);
    if t != [] {
      assert SkipSpace(t, 0) == 0;
      assert SkipSpaceBack(t, 0, |t|) == |t|;
    } else {
      assert SkipSpace(t, 0) == 0;
    }
    assert t[0..|t|] == t;
  }

  predicate IsFenceAt(s: string, i: nat) {
    i + 3 <= |s| && s[i..i + 3] == "```"
  }

  /** The first code fence at or after `from`. */
  function FindFence(s: string, from: nat): (r: Common.Option<nat>)
    requires from <= |s|
    ensures r.Some? ==> from <= r.value && IsFenceAt(s, r.value)
    ensures r.Some? ==> forall j :: from <= j < r.value ==> !IsFenceAt(s, j)
    ensures r.None? ==> forall j :: from <= j <= |s| ==> !IsFenceAt(s, j)
    decreases |s| - from
  {
    if from + 3 > |s| then Common.None
    else if s[from..from + 3] == "```" then Common.Some(from)
    else FindFence(s, from + 1)
  }

  /**
   * Where the first group of /```(?:json)?\s*([\s\S]*?)```/ starts, given the
   * opening fence at `p`: after the fence, the `json` tag when it follows,
   * and all the whitespace after that.
   */
  function ContentStart(s: string, p: nat): (c: nat)
    requires IsFenceAt(s, p)
    ensures p + 3 <= c <= |s|
    ensures var tagged := p + 7 <= |s| && s[p + 3..p + 7] == "json";
      forall k :: (if tagged then p + 7 else p + 3) <= k < c ==> IsSpace(s[k])
    ensures c < |s| ==> !IsSpace(s[c])
  {
    var a := p + 3;
    var b := if a + 4 <= |s| && s[a..a + 4] == "json" then a + 4 else a;
    SkipSpace(s, b)
  }

  /**
   * Where the first group of /```(?:json)?\s*([\s\S]*?)```/ starts and ends
   * in `s`, if the expression matches. A match needs a fence, then another
   * fence at or after the end of the first: the optional `json` tag and the
   * whitespace after it hold no backtick, so giving them back cannot find
   * another closing fence, and no later opening fence can succeed where the
   * first failed. The group starts after the tag and all the whitespace and
   * ends at the first fence from there.
   */
  function FenceContent(s: string): (r: Common.Option<(nat, nat)>)
    ensures r.None? <==>
      || FindFence(s, 0).None?
      || forall j :: ContentStart(s, FindFence(s, 0).value) <= j <= |s| ==> !IsFenceAt(s, j)
    ensures r.Some? ==> FindFence(s, 0).Some? && r.value.0 == ContentStart(s, FindFence(s, 0).value)
    ensures r.Some? ==> r.value.0 <= r.value.1 <= |s|
    ensures r.Some? ==> forall j :: r.value.0 <= j < r.value.1 ==> !IsFenceAt(s, j)
    ensures r.Some? ==> IsFenceAt(s, r.value.1)
  {
    match FindFence(s, 0)
    case None => Common.None
    case Some(p) =>
      var c := ContentStart(s, p);
      match FindFence(s, c)
      case None => Common.None
      case Some(q) => Common.Some((c, q))
  }

  /**
   * The text `extractJson` hands to `JSON.parse`: the trimmed reply, or, when
   * the reply holds a fenced block, that block's trimmed content.
   */
  function ExtractJsonText(text: string): (r: string)
    ensures r != [] ==> !IsSpace(r[0]) && !IsSpace(r[|r| - 1])
    ensures FenceContent(Trim(text)).None? ==> r == Trim(text)
  {
    var cleaned := Trim(text);
    match FenceContent(cleaned)
    case None => cleaned
    case Some((c, q)) => Trim(cleaned[c..q])
  }

  /** What `JSON.parse` is handed is always one contiguous piece of the reply. */
  lemma ExtractedIsSlice(text: string)
    ensures exists i, j :: 0 <= i <= j <= |text| && ExtractJsonText(text) == text[i..j]
  {
    var i, j := ExtractedBounds(text);
  }

  /** Where in the reply the text handed to `JSON.parse` lies. */
  lemma ExtractedBounds(text: string) returns (i: nat, j: nat)
    ensures i <= j <= |text| && ExtractJsonText(text) == text[i..j]
  {
    var b := TrimBounds(text);
    var fc := FenceContent(Trim(text));
    if fc.None? {
      i, j := b.0, b.1;
    } else {
      var (c, q) := fc.value;
      FencedText(text, c, q);
      assert Trim(text)[c..q] == text[b.0..b.1][c..q];
      i, j := TrimmedSliceBounds(text, b.0, b.1, c, q);
    }
  }

  /** With a fenced block, what `JSON.parse` is handed is the block's content, trimmed. */
  lemma FencedText(text: string, c: nat, q: nat)
    requires FenceContent(Trim(text)) == Common.Some((c, q))
    ensures c <= q <= |Trim(text)| && ExtractJsonText(text) == Trim(Trim(text)[c..q])
  {
  }

  /** Trimming a piece of a piece of `s` leaves a piece of `s`. */
  lemma TrimmedSliceBounds(s: string, a: nat, b: nat, c: nat, q: nat) returns (i: nat, j: nat)
    requires a <= b <= |s| && c <= q <= b - a
    ensures a + c <= i <= j <= a + q && Trim(s[a..b][c..q]) == s[i..j]
  {
    var k, l := TrimOfSlice(s[a..b], c, q);
    SliceOfSlice(s, a, b, k, l);
    i, j := a + k, a + l;
  }

  /** Trimming a slice of `s` gives a narrower slice of `s`. */
  lemma TrimOfSlice(s: string, a: nat, b: nat) returns (i: nat, j: nat)
    requires a <= b <= |s|
    ensures a <= i <= j <= b && Trim(s[a..b]) == s[i..j]
  {
    var t := TrimBounds(s[a..b]);
    i, j := a + t.0, a + t.1;
    SliceOfSlice(s, a, b, t.0, t.1);
  }

  /** A reply without a fence is only trimmed. */
  lemma UnfencedIsTrimmed(text: string)
    requires forall j :: 0 <= j <= |Trim(text)| ==> !IsFenceAt(Trim(text), j)
    ensures ExtractJsonText(text) == Trim(text)
  {
    assert FindFence(Trim(text), 0).None?;
  }

  /** When a fenced block is found, the kept content holds no fence: it stops at the first closing one. */
  lemma {:induction false} ContentHasNoFence(text: string)
    requires FenceContent(Trim(text)).Some?
    ensures forall j :: 0 <= j <= |ExtractJsonText(text)| ==> !IsFenceAt(ExtractJsonText(text), j)
  {
    var cleaned := Trim(text);
    var (c, q) := FenceContent(cleaned).value;
    var body := cleaned[c..q];
    forall j | 0 <= j <= |body|
      ensures !IsFenceAt(body, j)
    {
      if j + 3 <= |body| {
        assert !IsFenceAt(cleaned, c + j);
        SliceOfSlice(cleaned, c, q, j, j + 3);
      }
    }
    TrimmedHasNoFence(body);
  }

  /** Trimming a text without fences leaves none. */
  lemma TrimmedHasNoFence(s: string)
    requires forall j :: 0 <= j <= |s| ==> !IsFenceAt(s, j)
    ensures forall j :: 0 <= j <= |Trim(s)| ==> !IsFenceAt(Trim(s), j)
  {
    var i := SkipSpace(s, 0);
    var k := SkipSpaceBack(s, i, |s|);
    var t := s[i..k];
    forall j | 0 <= j <= |t|
      ensures !IsFenceAt(t, j)
    {
      if j + 3 <= |t| {
        assert !IsFenceAt(s, i + j);
        SliceOfSlice(s, i, k, j, j + 3);
      }
    }
  }

  /** A slice of a slice is a slice of the original. */
  lemma SliceOfSlice(s: string, a: nat, b: nat, i: nat, j: nat)
    requires a <= b <= |s| && i <= j <= b - a
    ensures s[a..b][i..j] == s[a + i..a + j]
  {
    var u := s[a..b][i..j];
    assert |u| == j - i;
    forall m | 0 <= m < j - i
      ensures u[m] == s[a + i..a + j][m]
    {
      assert u[m] == s[a..b][i + m] == s[a + i + m];
    }
  }
}
