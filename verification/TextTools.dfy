/** Character classes and trimming, as Python's `str.strip`, `\s` and (for ASCII letters) `str.lower` see them. */
module TextTools {
  predicate IsSpace(c: char) {
    var n := c as int;
    9 <= n <= 13 || 28 <= n <= 32 || n == 0x85 || n == 0xA0 || n == 0x1680 || 0x2000 <= n <= 0x200A
    || 0x2028 <= n <= 0x2029 || n == 0x202F || n == 0x205F || n == 0x3000
  }

  /** First position from `i` on that is not blank, or the length. */
  function SkipBlanks(s: string, i: nat): (r: nat)
    requires i <= |s|
    ensures i <= r <= |s|
    ensures r < |s| ==> !IsSpace(s[r])
    decreases |s| - i
  {
    if i < |s| && IsSpace(s[i]) then SkipBlanks(s, i + 1) else i
  }

  /** Only blanks are skipped. */
  lemma {:induction false} SkippedAreBlanks(s: string, i: nat, k: nat)
    requires i <= k < |s|
    ensures k < SkipBlanks(s, i) ==> IsSpace(s[k])
    decreases |s| - i
  {
    if i < k && IsSpace(s[i]) {
      SkippedAreBlanks(s, i + 1, k);
    }
  }

  /** The end of `s[i..j]` without its trailing blanks. */
  function DropBlanks(s: string, i: nat, j: nat): (r: nat)
    requires i <= j <= |s|
    ensures i <= r <= j
    ensures r > i ==> !IsSpace(s[r - 1])
    decreases j
  {
    if i < j && IsSpace(s[j - 1]) then DropBlanks(s, i, j - 1) else j
  }

  /** Only blanks are dropped. */
  lemma {:induction false} DroppedAreBlanks(s: string, i: nat, j: nat, k: nat)
    requires i <= k < j <= |s|
    ensures DropBlanks(s, i, j) <= k ==> IsSpace(s[k])
    decreases j
  {
    if k < j - 1 && IsSpace(s[j - 1]) {
      DroppedAreBlanks(s, i, j - 1, k);
    }
  }

  function StripLeft(s: string): string {
    s[SkipBlanks(s, 0)..]
  }

  function Strip(s: string): string {
    var i := SkipBlanks(s, 0);
    s[i..DropBlanks(s, i, |s|)]
  }

  function LowerChar(c: char): char {
    if 'A' <= c <= 'Z' then c + 32 as char else c
  }

  function Lower(s: string): (r: string)
    ensures |r| == |s|
  {
    if s == "" then "" else [LowerChar(s[0])] + Lower(s[1..])
  }

  predicate OccursAt(s: string, part: string, i: nat) {
    i + |part| <= |s| && forall k :: 0 <= k < |part| ==> s[i + k] == part[k]
  }

  predicate Contains(s: string, part: string) {
    exists i: nat :: i <= |s| && OccursAt(s, part, i)
  }

  // ---- Characters, one by one ----

  /** The blanks are these 29 characters. */
  lemma {:induction false} SpaceTable(c: char)
    ensures IsSpace(c) <==>
            c in "\t\n\U{0B}\U{0C}\r\U{1C}\U{1D}\U{1E}\U{1F} \U{85}\U{A0}\U{1680}\U{2000}\U{2001}\U{2002}" +
                 "\U{2003}\U{2004}\U{2005}\U{2006}\U{2007}\U{2008}\U{2009}\U{200A}" +
                 "\U{2028}\U{2029}\U{202F}\U{205F}\U{3000}"
  {
  }

  const CAPITALS := "ABCDEFGHIJKLMNOPQRSTUVWXYZ"
  const SMALL_LETTERS := "abcdefghijklmnopqrstuvwxyz"

  lemma Letters()
    ensures |CAPITALS| == |SMALL_LETTERS| == 26
    ensures forall k :: 0 <= k < 26 ==> CAPITALS[k] as int == 65 + k && SMALL_LETTERS[k] as int == 97 + k
  {
  }

  /** Lower-casing works character by character. */
  lemma {:induction false} LowerAt(s: string, i: nat)
    requires i < |s|
    ensures Lower(s)[i] == LowerChar(s[i])
    decreases i
  {
    if i > 0 {
      LowerAt(s[1..], i - 1);
    }
  }

  /** It takes a capital letter to its small one and keeps every other character. */
  lemma {:induction false} LowerMeaning(c: char)
    ensures forall k :: 0 <= k < 26 && c == CAPITALS[k] ==> LowerChar(c) == SMALL_LETTERS[k]
    ensures c !in CAPITALS ==> LowerChar(c) == c
  {
    Letters();
    assert 'A' <= c <= 'Z' ==> c == CAPITALS[c as int - 65];
  }

  // ---- Parts of a text with blanks between them ----

  predicate AllBlank(s: string) {
    forall i :: 0 <= i < |s| ==> IsSpace(s[i])
  }

  lemma {:induction false} BlanksInFront(s: string)
    ensures AllBlank(s[..SkipBlanks(s, 0)])
  {
    forall k | 0 <= k < SkipBlanks(s, 0) ensures IsSpace(s[k]) {
      SkippedAreBlanks(s, 0, k);
    }
  }

  lemma {:induction false} BlanksBehind(s: string, i: nat)
    requires i <= |s|
    ensures AllBlank(s[DropBlanks(s, i, |s|)..])
  {
    var j := DropBlanks(s, i, |s|);
    forall k | j <= k < |s| ensures IsSpace(s[k]) {
      DroppedAreBlanks(s, i, |s|, k);
    }
  }

  /** Stripping takes the blanks off both ends and nothing else. */
  lemma {:induction false} StripMeaning(s: string) returns (before: string, after: string)
    ensures s == before + Strip(s) + after && AllBlank(before) && AllBlank(after)
    ensures Strip(s) != "" ==> !IsSpace(Strip(s)[0]) && !IsSpace(Strip(s)[|Strip(s)| - 1])
  {
    hide IsSpace, SkipBlanks, DropBlanks, AllBlank;
    var i := SkipBlanks(s, 0);
    var j := DropBlanks(s, i, |s|);
    before, after := s[..i], s[j..];
    BlanksInFront(s);
    BlanksBehind(s, i);
  }

  lemma {:induction false} StripLeftMeaning(s: string) returns (before: string)
    ensures s == before + StripLeft(s) && AllBlank(before)
    ensures StripLeft(s) != "" ==> !IsSpace(StripLeft(s)[0])
  {
    var i := SkipBlanks(s, 0);
    before := s[..i];
    BlanksInFront(s);
    hide IsSpace, SkipBlanks;
  }

  /** Each part with the gap after it. */
  function Woven(parts: seq<string>, gaps: seq<string>): string
    requires |parts| == |gaps|
  {
    if parts == [] then "" else parts[0] + gaps[0] + Woven(parts[1..], gaps[1..])
  }

  /** Blanks, and some of them in every gap but the last. */
  predicate AreGaps(gaps: seq<string>) {
    forall i :: 0 <= i < |gaps| ==> AllBlank(gaps[i]) && (i < |gaps| - 1 ==> gaps[i] != "")
  }

  lemma {:induction false} OneMoreGap(gap: string, gaps: seq<string>)
    requires AllBlank(gap) && AreGaps(gaps) && (gaps != [] ==> gap != "")
    ensures AreGaps([gap] + gaps)
  {
    hide AllBlank;
    forall i | 0 < i < |gaps| + 1 ensures ([gap] + gaps)[i] == gaps[i - 1] {
    }
  }

  lemma {:induction false} PartInFront(s: string, i: nat, j: nat, gap: string, parts: seq<string>, gaps: seq<string>)
    requires i <= j <= |s| && |parts| == |gaps| && s[j..] == gap + Woven(parts, gaps)
    ensures s == s[..i] + Woven([s[i..j]] + parts, [gap] + gaps)
  {
    assert ([s[i..j]] + parts)[1..] == parts && ([gap] + gaps)[1..] == gaps;
    assert s[i..j] + gap + Woven(parts, gaps) == s[i..j] + s[j..];
  }
}
