/** Shortening the text of a notification at a word boundary. */
module Notification {
  import opened Wrappers
  import opened Utf8

  const ELLIPSIS: char := '\U{2026}'

  /** The White_Space property of Unicode. */
  predicate IsWhitespace(c: char) {
    var n := c as int;
    || 0x09 <= n <= 0x0D || n == 0x20 || n == 0x85 || n == 0xA0 || n == 0x1680 || 0x2000 <= n <= 0x200A
    || n == 0x2028 || n == 0x2029 || n == 0x202F || n == 0x205F || n == 0x3000
  }

  lemma WhitespaceCharacters(c: char)
    ensures IsWhitespace(c) <==>
            || c in {'\t', '\n', '\U{000B}', '\U{000C}', '\r', ' ', '\U{0085}', '\U{00A0}', '\U{1680}', '\U{2000}'}
            || c in {'\U{2001}', '\U{2002}', '\U{2003}', '\U{2004}', '\U{2005}', '\U{2006}', '\U{2007}', '\U{2008}'}
            || c in {'\U{2009}', '\U{200A}', '\U{2028}', '\U{2029}', '\U{202F}', '\U{205F}', '\U{3000}'}
  {
    assert c as int as char == c;
  }

  function TrimStart(s: string): string {
    if s != "" && IsWhitespace(s[0]) then TrimStart(s[1..]) else s
  }

  function TrimEnd(s: string): string {
    if s != "" && IsWhitespace(s[|s| - 1]) then TrimEnd(s[..|s| - 1]) else s
  }

  function Trim(s: string): string {
    TrimEnd(TrimStart(s))
  }

  /** The index of the last whitespace character. */
  function LastWhitespace(s: string): Option<nat> {
    if s == "" then None
    else if IsWhitespace(s[|s| - 1]) then Some(|s| - 1)
    else LastWhitespace(s[..|s| - 1])
  }

  lemma {:induction false} LastWhitespaceIsLast(s: string)
    ensures LastWhitespace(s).None? ==> forall i | 0 <= i < |s| :: !IsWhitespace(s[i])
    ensures LastWhitespace(s).Some? ==>
      var k := LastWhitespace(s).value;
      k < |s| && IsWhitespace(s[k]) && forall i | k < i < |s| :: !IsWhitespace(s[i])
  {
    if s == "" || IsWhitespace(s[|s| - 1]) {
    } else {
      LastWhitespaceIsLast(s[..|s| - 1]);
      assert forall i | 0 <= i < |s| - 1 :: s[i] == s[..|s| - 1][i];
    }
  }

  lemma {:induction false} TrimEndCutsWhitespace(s: string)
    ensures var t := TrimEnd(s);
            && t <= s
            && (forall i | |t| <= i < |s| :: IsWhitespace(s[i]))
            && (t != "" ==> !IsWhitespace(t[|t| - 1]))
  {
    if s == "" || !IsWhitespace(s[|s| - 1]) {
    } else {
      TrimEndCutsWhitespace(s[..|s| - 1]);
      assert forall i | 0 <= i < |s| - 1 :: s[i] == s[..|s| - 1][i];
    }
  }

  lemma {:induction false} TrimStartCutsWhitespace(s: string) returns (from: nat)
    ensures from <= |s| && TrimStart(s) == s[from..]
    ensures forall i | 0 <= i < from :: IsWhitespace(s[i])
    ensures TrimStart(s) != "" ==> !IsWhitespace(TrimStart(s)[0])
  {
    if s == "" || !IsWhitespace(s[0]) {
      from := 0;
    } else {
      var rest := TrimStartCutsWhitespace(s[1..]);
      from := rest + 1;
      assert forall i | 1 <= i < from :: s[i] == s[1..][i - 1];
    }
  }

  /** Trimming cuts whitespace and nothing else off both ends, and all of it. */
  lemma TrimCutsWhitespace(s: string) returns (from: nat, to: nat)
    ensures from <= to <= |s| && Trim(s) == s[from..to]
    ensures forall i | 0 <= i < from || to <= i < |s| :: IsWhitespace(s[i])
    ensures Trim(s) != "" ==> !IsWhitespace(Trim(s)[0]) && !IsWhitespace(Trim(s)[|Trim(s)| - 1])
  {
    from := TrimStartCutsWhitespace(s);
    var t := TrimStart(s);
    TrimEndCutsWhitespace(t);
    to := from + |Trim(s)|;
    forall i | to <= i < |s|
      ensures IsWhitespace(s[i])
    {
      assert s[i] == t[i - from];
    }
  }

  /** `rfind` of whitespace: the byte offset of the last whitespace character. */
  function FindLastWhitespace(bytes: seq<byte>): Option<nat> {
    var s := Decode(bytes);
    LastWhitespaceIsLast(s);
    match LastWhitespace(s)
    case Some(k) => Some(Offset(s, k))
    case None => None
  }

  /** What is kept of a window of characters before the ellipsis. */
  function Kept(window: string): string {
    LastWhitespaceIsLast(window);
    match LastWhitespace(window)
    case Some(k) => TrimEnd(window[..k])
    case None => TrimEnd(window)
  }

  /** In terms of characters. */
  function Truncated(text: string, maxChars: nat): string {
    if |Trim(text)| <= maxChars then Trim(text)
    else Kept(Trim(text)[..maxChars]) + [ELLIPSIS]
  }

  /** In terms of bytes, as the program does it. `None` stands for a panic: there is none, and the bytes are
      those of the text shortened in terms of characters. */
  method TruncateAtWordBoundary(text: string, maxChars: nat) returns (result: Option<seq<byte>>)
    ensures result == Some(Encode(Truncated(text, maxChars)))
  {
    var s := Trim(text);
    var bytes := Encode(s);
    if |s| <= maxChars {
      return Some(bytes);
    }
    var byteCutoff := Offset(s, maxChars);
    SliceAtOffset(s, maxChars);
    ghost var window := s[..maxChars];
    var candidate := SliceTo(bytes, byteCutoff);
    if candidate.None? {
      return None;
    }
    DecodeEncode(window);
    LastWhitespaceIsLast(window);
    var found := FindLastWhitespace(candidate.value);
    var trimTo := if found.Some? then found.value else |candidate.value|;
    ghost var cut := if LastWhitespace(window).Some? then LastWhitespace(window).value else |window|;
    OffsetSplits(window, |window|);
    assert window[..|window|] == window;
    SliceAtOffset(window, cut);
    var head := SliceTo(candidate.value, trimTo);
    if head.None? {
      return None;
    }
    DecodeEncode(window[..cut]);
    var out := TrimEnd(Decode(head.value));
    EncodeOfConcat(out, [ELLIPSIS]);
    result := Some(Encode(out) + Encode([ELLIPSIS]));
  }

  lemma EncodeOfConcat(a: string, b: string)
    ensures Encode(a + b) == Encode(a) + Encode(b)
  {
    OffsetSplits(a + b, |a|);
    assert (a + b)[..|a|] == a && (a + b)[|a|..] == b;
  }

  ghost predicate HasWhitespace(s: string) {
    exists i :: 0 <= i < |s| && IsWhitespace(s[i])
  }

  /** The last run of whitespace of a string, with `from` its first index and `last` its last one. */
  ghost predicate LastRun(s: string, from: nat, last: nat) {
    && from <= last < |s|
    && (forall i | from <= i <= last :: IsWhitespace(s[i]))
    && (forall i | last < i < |s| :: !IsWhitespace(s[i]))
    && (from > 0 ==> !IsWhitespace(s[from - 1]))
  }

  ghost predicate EndsAtLastRun(s: string, end: nat) {
    exists last :: LastRun(s, end, last)
  }

  /** A window that starts with a word keeps whole words: it ends at its last run of whitespace, and is kept
      in full if it has none. */
  lemma KeptEndsAtAWord(window: string)
    requires window != "" && !IsWhitespace(window[0])
    ensures Kept(window) != "" && Kept(window) <= window
    ensures !HasWhitespace(window) ==> Kept(window) == window
    ensures HasWhitespace(window) ==> EndsAtLastRun(window, |Kept(window)|)
  {
    LastWhitespaceIsLast(window);
    match LastWhitespace(window)
    case Some(k) => KeptBeforeRun(window, k);
    case None => TrimEndCutsWhitespace(window);
  }

  lemma KeptBeforeRun(window: string, k: nat)
    requires window != "" && !IsWhitespace(window[0]) && LastWhitespace(window) == Some(k)
    ensures Kept(window) != "" && Kept(window) <= window
    ensures LastRun(window, |Kept(window)|, k)
  {
    LastWhitespaceIsLast(window);
    var head, kept := window[..k], TrimEnd(window[..k]);
    TrimEndCutsWhitespace(head);
    assert forall i | 0 <= i < k :: head[i] == window[i];
  }

  /** A short text stays as it is. A long one becomes a nonempty beginning of itself and an ellipsis, cut before
      the last run of whitespace among its first `maxChars` characters if there is any. */
  lemma TruncatedKeepsWholeWords(text: string, maxChars: nat)
    requires maxChars > 0
    ensures var s, t := Trim(text), Truncated(text, maxChars);
            && (|s| <= maxChars ==> t == s)
            && (|s| > maxChars ==>
                  && 1 < |t| <= maxChars + 1 && t[|t| - 1] == ELLIPSIS && t[..|t| - 1] <= s
                  && (HasWhitespace(s[..maxChars]) ==> |t| <= maxChars && EndsAtLastRun(s[..maxChars], |t| - 1))
                  && (!HasWhitespace(s[..maxChars]) ==> t == s[..maxChars] + [ELLIPSIS]))
  {
    var s, t := Trim(text), Truncated(text, maxChars);
    if |s| > maxChars {
      var from, to := TrimCutsWhitespace(text);
      KeptEndsAtAWord(s[..maxChars]);
      assert t[..|t| - 1] == Kept(s[..maxChars]);
    }
  }

  /** The comment on the function promises at most `maxChars` characters. The ellipsis is one more whenever
      the text is long and its first `maxChars` characters are one word. */
  lemma FitsIffShortOrSeveralWords(text: string, maxChars: nat)
    ensures |Truncated(text, maxChars)| <= maxChars <==>
            |Trim(text)| <= maxChars || HasWhitespace(Trim(text)[..maxChars])
  {
    if maxChars > 0 {
      TruncatedKeepsWholeWords(text, maxChars);
    }
  }

  /** A word of printable ASCII. */
  predicate IsWord(s: string) {
    s != "" && forall i | 0 <= i < |s| :: '!' <= s[i] <= '~'
  }

  lemma WordsStay(s: string)
    requires s != "" && '!' <= s[0] <= '~' && '!' <= s[|s| - 1] <= '~'
    ensures Trim(s) == s
  {
  }

  /** Two words with a space between them: a text that is too long loses the second word, or, if the first does not
      fit either, is cut within the first. */
  lemma TwoWords(first: string, second: string, maxChars: nat)
    requires IsWord(first) && IsWord(second)
    ensures var text := first + " " + second;
            Truncated(text, maxChars) ==
            if |text| <= maxChars then text
            else if |first| < maxChars then first + ['\U{2026}']
            else first[..maxChars] + ['\U{2026}']
  {
    var text := first + " " + second;
    WordsStay(text);
    if maxChars < |text| {
      var window := text[..maxChars];
      LastWhitespaceIsLast(window);
      if |first| < maxChars {
        assert window[|first|] == ' ' && forall i | |first| < i < |window| :: window[i] == second[i - |first| - 1];
        assert LastWhitespace(window) == Some(|first|);
        assert window[..|first|] == first;
      } else {
        assert window == first[..maxChars];
      }
    }
  }
}
