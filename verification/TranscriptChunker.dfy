/** Sentence packing: chunk_transcript of feral-core/agents/ambient_transcript.py. */
module TranscriptChunker {
  import opened TextTools

  predicate EndsSentence(c: char) { c == '.' || c == '!' || c == '?' }

  /** First position from `i` on where a blank follows the end of a sentence, or the length. */
  function Boundary(t: string, i: nat): (b: nat)
    requires 1 <= i <= |t|
    ensures i <= b <= |t|
    ensures b < |t| ==> EndsSentence(t[b - 1]) && IsSpace(t[b])
    decreases |t| - i
  {
    if i == |t| || (EndsSentence(t[i - 1]) && IsSpace(t[i])) then i else Boundary(t, i + 1)
  }

  /** Split at every run of blanks that follows the end of a sentence. */
  function Sentences(t: string): seq<string> {
    if t == "" then [""]
    else
      var b := Boundary(t, 1);
      if b == |t| then [t] else [t[..b]] + Sentences(StripLeft(t[b..]))
  }

  /** What follows a sentence: the text after the blanks. */
  function After(t: string): string
    requires t != ""
  {
    StripLeft(t[Boundary(t, 1)..])
  }

  lemma {:induction false} SentencesUnfold(t: string)
    requires t != "" && Boundary(t, 1) < |t|
    ensures Sentences(t) == [t[..Boundary(t, 1)]] + Sentences(After(t)) && |After(t)| < |t|
  {
  }

  lemma {:induction false} BoundaryIsFirst(t: string, i: nat, k: nat)
    requires 1 <= i <= |t| && i <= k < |t| && k < Boundary(t, i)
    ensures !(EndsSentence(t[k - 1]) && IsSpace(t[k]))
    decreases |t| - i
  {
    if i < k {
      BoundaryIsFirst(t, i + 1, k);
    }
  }

  /** No blank follows the end of a sentence inside the part. */
  predicate IsUnsplit(s: string) {
    forall k :: 1 <= k < |s| ==> !(s[k - 1] in ".!?" && IsSpace(s[k]))
  }

  predicate EndsInMark(s: string) {
    s != "" && s[|s| - 1] in ".!?"
  }

  /** Every sentence but the last ends in a mark, every one but the first starts without a blank, and none splits. */
  predicate AreSentences(sentences: seq<string>) {
    forall i :: 0 <= i < |sentences| ==>
      && IsUnsplit(sentences[i])
      && (i < |sentences| - 1 ==> EndsInMark(sentences[i]))
      && (i > 0 && sentences[i] != "" ==> !IsSpace(sentences[i][0]))
  }

  lemma {:induction false} FirstSentence(t: string)
    requires t != ""
    ensures IsUnsplit(t[..Boundary(t, 1)])
    ensures Boundary(t, 1) < |t| ==> EndsInMark(t[..Boundary(t, 1)]) && IsSpace(t[Boundary(t, 1)])
  {
    var b := Boundary(t, 1);
    forall k | 1 <= k < b ensures !(t[k - 1] in ".!?" && IsSpace(t[k])) {
      BoundaryIsFirst(t, 1, k);
    }
    hide IsSpace, Boundary;
  }

  lemma {:induction false} OneMoreSentence(s: string, sentences: seq<string>)
    requires IsUnsplit(s) && EndsInMark(s) && AreSentences(sentences) && sentences != []
    requires sentences[0] != "" ==> !IsSpace(sentences[0][0])
    ensures AreSentences([s] + sentences)
  {
    hide IsSpace, IsUnsplit, EndsInMark;
    forall i | 0 < i < |sentences| + 1 ensures ([s] + sentences)[i] == sentences[i - 1] {
    }
  }

  lemma {:induction false} LoneSentence(t: string)
    requires t == "" || Boundary(t, 1) == |t|
    ensures Sentences(t) == [t] && AreSentences([t]) && AreGaps([""]) && t == Woven([t], [""])
  {
    assert [t][1..] == [] && [""][1..] == [];
    assert t + "" + "" == t;
    if t != "" {
      FirstSentence(t);
      assert t[..|t|] == t;
    }
  }

  lemma {:induction false} GapAfter(t: string) returns (gap: string)
    requires t != "" && Boundary(t, 1) < |t|
    ensures gap != "" && AllBlank(gap) && t[Boundary(t, 1)..] == gap + After(t)
    ensures After(t) != "" ==> !IsSpace(After(t)[0])
  {
    var b := Boundary(t, 1);
    FirstSentence(t);
    gap := StripLeftMeaning(t[b..]);
    hide IsSpace, Boundary, StripLeft;
    assert t[b..][0] == t[b];
  }

  /** The sentences and the blanks between them make up the text, split wherever it can be. */
  lemma {:induction false} SentencesMeaning(t: string) returns (gaps: seq<string>)
    ensures AreSentences(Sentences(t)) && AreGaps(gaps) && |gaps| == |Sentences(t)| && gaps[|gaps| - 1] == ""
    ensures t == Woven(Sentences(t), gaps)
    decreases |t|
  {
    if t == "" || Boundary(t, 1) == |t| {
      gaps := [""];
      LoneSentence(t);
    } else {
      SentencesUnfold(t);
      hide Sentences, After, Boundary, AreSentences, AreGaps, AllBlank, Woven;
      var gap := GapAfter(t);
      var rest := SentencesMeaning(After(t));
      gaps := [gap] + rest;
      MeaningStep(t, gap, rest);
    }
  }

  lemma {:induction false} MeaningStep(t: string, gap: string, rest: seq<string>)
    requires t != "" && Boundary(t, 1) < |t| && t[Boundary(t, 1)..] == gap + After(t)
    requires gap != "" && AllBlank(gap) && (After(t) != "" ==> !IsSpace(After(t)[0]))
    requires AreSentences(Sentences(After(t))) && AreGaps(rest) && |rest| == |Sentences(After(t))|
    requires After(t) == Woven(Sentences(After(t)), rest)
    ensures AreSentences(Sentences(t)) && AreGaps([gap] + rest) && |[gap] + rest| == |Sentences(t)|
    ensures t == Woven(Sentences(t), [gap] + rest)
  {
    var b, after := Boundary(t, 1), After(t);
    FirstSentence(t);
    SentencesUnfold(t);
    SentencesStart(after);
    hide Sentences, After, Boundary, IsSpace, IsUnsplit, EndsInMark, AreSentences, AreGaps, AllBlank, Woven;
    OneMoreGap(gap, rest);
    OneMoreSentence(t[..b], Sentences(after));
    PartInFront(t, 0, b, gap, Sentences(after), rest);
    NothingInFront(t[..0], Woven([t[0..b]] + Sentences(after), [gap] + rest));
  }

  lemma {:induction false} NothingInFront(a: string, b: string)
    requires a == ""
    ensures a + b == b
  {
  }

  lemma {:induction false} SentencesStart(t: string)
    ensures Sentences(t) != [] && (Sentences(t)[0] != "" <==> t != "")
    ensures t != "" ==> Sentences(t)[0][0] == t[0]
  {
  }

  // ---- Packing, one sentence at a time ----

  /** The chunks closed so far and the one being filled. */
  datatype Packing = Packing(chunks: seq<string>, current: string)

  function Flush(p: Packing): seq<string> {
    if p.current != "" then p.chunks + [Strip(p.current)] else p.chunks
  }

  /** Cut a sentence that is too long into full chunks, and return what is left of it. */
  function HardSplit(p: Packing, s: string, n: nat): (r: (Packing, string))
    requires n >= 1
    ensures |r.1| <= n
    decreases |s|
  {
    if |s| <= n then (p, s) else HardSplit(Packing(Flush(p) + [s[..n]], ""), s[n..], n)
  }

  function Place(p: Packing, s: string, n: nat): Packing {
    if |p.current| + |s| + 1 > n then Packing(p.chunks + [Strip(p.current)], s)
    else Packing(p.chunks, Strip(p.current + " " + s))
  }

  function Feed(p: Packing, s: string, n: nat): Packing
    requires n >= 1
  {
    if s == "" then p
    else
      var split := HardSplit(p, s, n);
      Place(split.0, split.1, n)
  }

  function Pack(sentences: seq<string>, n: nat): Packing
    requires n >= 1
  {
    if sentences == [] then Packing([], "")
    else Feed(Pack(sentences[..|sentences| - 1], n), sentences[|sentences| - 1], n)
  }

  /** The chunks when the one being filled is closed too. */
  function Closed(p: Packing): seq<string> {
    p.chunks + if Strip(p.current) != "" then [Strip(p.current)] else []
  }

  function NonEmpty(chunks: seq<string>): seq<string> {
    if chunks == [] then []
    else (if chunks[0] != "" then [chunks[0]] else []) + NonEmpty(chunks[1..])
  }

  function Chunks(text: string, n: nat): seq<string>
    requires n >= 1
  {
    var t := Strip(text);
    if t == "" then []
    else if |t| <= n then [t]
    else
      NonEmpty(Closed(Pack(Sentences(t), n)))
  }

  lemma {:induction false} HardSplitUnfold(p: Packing, s: string, n: nat)
    requires n >= 1
    ensures |s| <= n ==> HardSplit(p, s, n) == (p, s)
    ensures |s| > n ==> HardSplit(p, s, n) == HardSplit(Packing(Flush(p) + [s[..n]], ""), s[n..], n)
  {
  }

  lemma {:induction false} PackNothing(n: nat)
    requires n >= 1
    ensures forall sentences: seq<string> :: Pack(sentences[..0], n) == Packing([], "")
  {
  }

  lemma {:induction false} PackUnfold(sentences: seq<string>, i: nat, n: nat)
    requires n >= 1 && i < |sentences|
    ensures Pack(sentences[..i + 1], n) == Feed(Pack(sentences[..i], n), sentences[i], n)
  {
    assert sentences[..i + 1][..i] == sentences[..i];
  }

  /** `chunk_transcript`. With a limit below 1 the hard split would not end. */
  method ChunkTranscript(text: string, n: nat) returns (result: seq<string>)
    requires n >= 1
    ensures result == Chunks(text, n)
  {
    var t := Strip(text);
    if t == "" {
      return [];
    }
    if |t| <= n {
      return [t];
    }
    hide Strip, Sentences, HardSplit, Pack, NonEmpty;
    var chunks: seq<string>, current := [], "";
    var sentences := Sentences(t);
    PackNothing(n);
    for i := 0 to |sentences|
      invariant Packing(chunks, current) == Pack(sentences[..i], n)
    {
      PackUnfold(sentences, i, n);
      var sentence := sentences[i];
      if sentence == "" {
        continue;
      }
      ghost var before := Packing(chunks, current);
      while |sentence| > n
        invariant HardSplit(before, sentences[i], n) == HardSplit(Packing(chunks, current), sentence, n)
        decreases |sentence|
      {
        HardSplitUnfold(Packing(chunks, current), sentence, n);
        if current != "" {
          chunks := chunks + [Strip(current)];
          current := "";
        }
        chunks := chunks + [sentence[..n]];
        sentence := sentence[n..];
      }
      HardSplitUnfold(Packing(chunks, current), sentence, n);
      if |current| + |sentence| + 1 > n {
        chunks := chunks + [Strip(current)];
        current := sentence;
      } else {
        current := Strip(current + " " + sentence);
      }
    }
    assert sentences[..|sentences|] == sentences;
    if Strip(current) != "" {
      chunks := chunks + [Strip(current)];
    } else {
      assert chunks + [] == chunks;
    }
    result := NonEmpty(chunks);
  }

  // ---- Every chunk is non-empty and within the limit ----

  predicate Within(chunks: seq<string>, n: nat) {
    forall i :: 0 <= i < |chunks| ==> |chunks[i]| <= n
  }

  lemma {:induction false} HardSplitWithin(p: Packing, s: string, n: nat)
    requires n >= 1 && Within(p.chunks, n) && |p.current| <= n
    ensures Within(HardSplit(p, s, n).0.chunks, n) && |HardSplit(p, s, n).0.current| <= n
    decreases |s|
  {
    if |s| > n {
      HardSplitWithin(Packing(Flush(p) + [s[..n]], ""), s[n..], n);
    }
  }

  lemma {:induction false} PackWithin(sentences: seq<string>, n: nat)
    requires n >= 1
    ensures Within(Pack(sentences, n).chunks, n) && |Pack(sentences, n).current| <= n
    decreases |sentences|
  {
    if sentences != [] {
      var front := sentences[..|sentences| - 1];
      PackWithin(front, n);
      HardSplitWithin(Pack(front, n), sentences[|sentences| - 1], n);
    }
  }

  lemma {:induction false} NonEmptyKeeps(chunks: seq<string>)
    ensures forall c :: c in NonEmpty(chunks) <==> c in chunks && c != ""
    decreases |chunks|
  {
    if chunks != [] {
      NonEmptyKeeps(chunks[1..]);
      assert chunks == [chunks[0]] + chunks[1..];
    }
  }

  lemma {:induction false} ClosingFits(p: Packing, n: nat)
    requires Within(p.chunks, n) && |p.current| <= n
    ensures Within(NonEmpty(Closed(p)), n) && "" !in NonEmpty(Closed(p))
  {
    var all := Closed(p);
    NonEmptyKeeps(all);
    forall i | 0 <= i < |NonEmpty(all)| ensures |NonEmpty(all)[i]| <= n {
      assert NonEmpty(all)[i] in all;
    }
  }

  /** Every chunk is non-empty and at most `n` characters long. */
  lemma {:induction false} ChunksFit(text: string, n: nat)
    requires n >= 1
    ensures Within(Chunks(text, n), n) && "" !in Chunks(text, n)
  {
    hide Pack, Closed, NonEmpty, Sentences, Strip;
    PackWithin(Sentences(Strip(text)), n);
    ClosingFits(Pack(Sentences(Strip(text)), n), n);
  }

  // ---- Nothing but blanks is lost or added ----

  function Ink(s: string): string {
    if s == "" then "" else (if IsSpace(s[0]) then "" else [s[0]]) + Ink(s[1..])
  }

  function Concat(parts: seq<string>): string {
    if parts == [] then "" else parts[0] + Concat(parts[1..])
  }

  lemma {:induction false} InkAppend(s: string, t: string)
    ensures Ink(s + t) == Ink(s) + Ink(t)
    decreases |s|
  {
    if s == "" {
      assert s + t == t;
    } else {
      assert (s + t)[1..] == s[1..] + t;
      InkAppend(s[1..], t);
    }
  }

  lemma {:induction false} InkOfBlank(s: string)
    requires forall i :: 0 <= i < |s| ==> IsSpace(s[i])
    ensures Ink(s) == ""
    decreases |s|
  {
    if s != "" {
      InkOfBlank(s[1..]);
    }
  }

  lemma {:induction false} SkippedIsBlank(s: string)
    ensures Ink(s[..SkipBlanks(s, 0)]) == ""
  {
    var i := SkipBlanks(s, 0);
    forall k | 0 <= k < i ensures IsSpace(s[..i][k]) {
      SkippedAreBlanks(s, 0, k);
    }
    hide IsSpace, Ink;
    InkOfBlank(s[..i]);
  }

  lemma {:induction false} DroppedIsBlank(s: string, i: nat)
    requires i <= |s|
    ensures Ink(s[DropBlanks(s, i, |s|)..]) == ""
  {
    var j := DropBlanks(s, i, |s|);
    forall k | 0 <= k < |s| - j ensures IsSpace(s[j..][k]) {
      DroppedAreBlanks(s, i, |s|, j + k);
    }
    hide IsSpace, Ink, DropBlanks;
    InkOfBlank(s[j..]);
  }

  lemma {:induction false} InkOfStripLeft(s: string)
    ensures Ink(StripLeft(s)) == Ink(s)
  {
    hide Ink, SkipBlanks;
    var i := SkipBlanks(s, 0);
    SkippedIsBlank(s);
    InkAppend(s[..i], s[i..]);
    assert s == s[..i] + s[i..];
  }

  lemma {:induction false} InkOfStrip(s: string)
    ensures Ink(Strip(s)) == Ink(s)
  {
    hide Ink, SkipBlanks, DropBlanks;
    var i := SkipBlanks(s, 0);
    var j := DropBlanks(s, i, |s|);
    InkOfStripLeft(s);
    DroppedIsBlank(s, i);
    InkAppend(s[i..j], s[j..]);
    assert s[i..] == s[i..j] + s[j..];
  }

  lemma {:induction false} ConcatAppend(a: seq<string>, b: seq<string>)
    ensures Concat(a + b) == Concat(a) + Concat(b)
    decreases |a|
  {
    if a == [] {
      assert a + b == b;
    } else {
      assert (a + b)[1..] == a[1..] + b;
      ConcatAppend(a[1..], b);
    }
  }

  /** All that is packed, closed chunks first. */
  function Packed(p: Packing): string {
    Ink(Concat(p.chunks)) + Ink(p.current)
  }

  lemma {:induction false} InkOfOneMore(chunks: seq<string>, c: string)
    ensures Ink(Concat(chunks + [c])) == Ink(Concat(chunks)) + Ink(c)
  {
    ConcatAppend(chunks, [c]);
    assert Concat([c]) == c + "" == c;
    InkAppend(Concat(chunks), c);
  }

  lemma {:induction false} FlushKeepsInk(p: Packing)
    ensures Ink(Concat(Flush(p))) == Packed(p)
  {
    InkOfOneMore(p.chunks, Strip(p.current));
    InkOfStrip(p.current);
  }

  lemma {:induction false} CutKeepsInk(p: Packing, s: string, n: nat)
    requires n <= |s|
    ensures Packed(Packing(Flush(p) + [s[..n]], "")) + Ink(s[n..]) == Packed(p) + Ink(s)
  {
    assert Ink("") == "";
    hide Ink, Flush, Concat;
    FlushKeepsInk(p);
    InkOfOneMore(Flush(p), s[..n]);
    InkAppend(s[..n], s[n..]);
    assert s == s[..n] + s[n..];
  }

  lemma {:induction false} HardSplitKeepsInk(p: Packing, s: string, n: nat)
    requires n >= 1
    ensures Packed(HardSplit(p, s, n).0) + Ink(HardSplit(p, s, n).1) == Packed(p) + Ink(s)
    decreases |s|
  {
    hide Ink, Packed, Flush;
    if |s| > n {
      CutKeepsInk(p, s, n);
      HardSplitKeepsInk(Packing(Flush(p) + [s[..n]], ""), s[n..], n);
    }
  }

  lemma {:induction false} InkOfJoin(a: string, b: string)
    ensures Ink(Strip(a + " " + b)) == Ink(a) + Ink(b)
  {
    var blank := " ";
    var front := a + blank;
    InkOfBlank(blank);
    InkAppend(a, blank);
    InkAppend(front, b);
    InkOfStrip(front + b);
  }

  lemma {:induction false} PlaceKeepsInk(p: Packing, s: string, n: nat)
    ensures Packed(Place(p, s, n)) == Packed(p) + Ink(s)
  {
    if |p.current| + |s| + 1 > n {
      InkOfOneMore(p.chunks, Strip(p.current));
      InkOfStrip(p.current);
    } else {
      InkOfJoin(p.current, s);
    }
  }

  lemma {:induction false} PackKeepsInk(sentences: seq<string>, n: nat)
    requires n >= 1
    ensures Packed(Pack(sentences, n)) == Ink(Concat(sentences))
    decreases |sentences|
  {
    if sentences != [] {
      var front, s := sentences[..|sentences| - 1], sentences[|sentences| - 1];
      assert sentences == front + [s];
      PackKeepsInk(front, n);
      InkOfOneMore(front, s);
      if s != "" {
        var split := HardSplit(Pack(front, n), s, n);
        HardSplitKeepsInk(Pack(front, n), s, n);
        PlaceKeepsInk(split.0, split.1, n);
      }
    }
  }

  lemma {:induction false} InkAfter(t: string)
    requires t != ""
    ensures Ink(t) == Ink(t[..Boundary(t, 1)]) + Ink(After(t))
  {
    hide Ink, StripLeft, Boundary;
    var b := Boundary(t, 1);
    InkOfStripLeft(t[b..]);
    InkAppend(t[..b], t[b..]);
    assert t == t[..b] + t[b..];
  }

  lemma {:induction false} SentencesKeepInk(t: string)
    ensures Ink(Concat(Sentences(t))) == Ink(t)
    decreases |t|
  {
    if t == "" {
      assert Concat([""]) == "" + Concat([]);
    } else if Boundary(t, 1) == |t| {
      assert Concat([t]) == t + Concat([]) == t;
    } else {
      var first := t[..Boundary(t, 1)];
      SentencesUnfold(t);
      SentencesKeepInk(After(t));
      InkAfter(t);
      assert ([first] + Sentences(After(t)))[1..] == Sentences(After(t));
      InkAppend(first, Concat(Sentences(After(t))));
    }
  }

  lemma {:induction false} NonEmptyKeepsText(chunks: seq<string>)
    ensures Concat(NonEmpty(chunks)) == Concat(chunks)
    decreases |chunks|
  {
    if chunks != [] {
      NonEmptyKeepsText(chunks[1..]);
      var rest := NonEmpty(chunks[1..]);
      if chunks[0] != "" {
        assert ([chunks[0]] + rest)[1..] == rest && NonEmpty(chunks) == [chunks[0]] + rest;
      } else {
        assert NonEmpty(chunks) == rest && Concat(chunks) == "" + Concat(chunks[1..]);
      }
    }
  }

  lemma {:induction false} ClosingKeepsInk(p: Packing)
    ensures Ink(Concat(NonEmpty(Closed(p)))) == Packed(p)
  {
    InkOfStrip(p.current);
    InkOfOneMore(p.chunks, Strip(p.current));
    NonEmptyKeepsText(Closed(p));
    assert p.chunks + [] == p.chunks;
  }

  /** The non-blank characters of the chunks, in order, are exactly those of the text. */
  lemma {:induction false} ChunksKeepInk(text: string, n: nat)
    requires n >= 1
    ensures Ink(Concat(Chunks(text, n))) == Ink(text)
  {
    var t := Strip(text);
    InkOfStrip(text);
    if t == "" {
    } else if |t| <= n {
      assert Concat([t]) == t + Concat([]) == t;
    } else {
      SentencesKeepInk(t);
      PackKeepsInk(Sentences(t), n);
      ClosingKeepsInk(Pack(Sentences(t), n));
    }
  }

  // ---- Sentences are parts of the text without blanks at their ends ----

  /** Non-empty, with no blank at either end. */
  predicate Trimmed(s: string) {
    s != "" && !IsSpace(s[0]) && !IsSpace(s[|s| - 1])
  }

  lemma {:induction false} StripIsTrimmed(s: string)
    ensures Strip(s) == "" || Trimmed(Strip(s))
  {
  }

  lemma {:induction false} StripOfTrimmed(s: string)
    requires Trimmed(s)
    ensures Strip(s) == s
  {
  }

  lemma {:induction false} StripLeftIsTrimmed(s: string)
    requires s != "" && !IsSpace(s[|s| - 1])
    ensures Trimmed(StripLeft(s))
  {
    hide IsSpace;
    SkippedAreBlanks(s, 0, |s| - 1);
  }

  predicate AllTrimmed(parts: seq<string>) {
    forall i :: 0 <= i < |parts| ==> Trimmed(parts[i])
  }

  lemma {:induction false} SentenceIsTrimmed(t: string)
    requires Trimmed(t) && Boundary(t, 1) < |t|
    ensures Trimmed(t[..Boundary(t, 1)])
  {
    hide IsSpace;
    EndOfSentenceIsInk(t[Boundary(t, 1) - 1]);
  }

  lemma {:induction false} EndOfSentenceIsInk(c: char)
    ensures EndsSentence(c) ==> !IsSpace(c)
  {
  }

  lemma {:induction false} AfterIsTrimmed(t: string)
    requires Trimmed(t) && Boundary(t, 1) < |t|
    ensures Trimmed(After(t))
  {
    hide IsSpace, StripLeft;
    var b := Boundary(t, 1);
    assert t[b..][|t| - 1 - b] == t[|t| - 1];
    StripLeftIsTrimmed(t[b..]);
  }

  lemma {:induction false} SentencesAreTrimmed(t: string)
    requires Trimmed(t)
    ensures AllTrimmed(Sentences(t))
    decreases |t|
  {
    if Boundary(t, 1) < |t| {
      SentencesUnfold(t);
      AfterIsTrimmed(t);
      SentenceIsTrimmed(t);
      hide Sentences, After, Trimmed, Boundary;
      SentencesAreTrimmed(After(t));
    }
  }

  /** Stripping takes nothing from a part without blanks at its ends. */
  lemma {:induction false} StripKeepsPart(t: string, s: string)
    requires Trimmed(s) && Contains(t, s)
    ensures Contains(Strip(t), s)
  {
    hide IsSpace, SkipBlanks, DropBlanks;
    var k: nat :| k <= |t| && OccursAt(t, s, k);
    assert t[k + 0] == s[0] && t[k + (|s| - 1)] == s[|s| - 1];
    var i := SkipBlanks(t, 0);
    var j := DropBlanks(t, i, |t|);
    SkippedAreBlanks(t, 0, k);
    DroppedAreBlanks(t, i, |t|, k + |s| - 1);
    assert i <= k && k + |s| <= j;
    assert OccursAt(Strip(t), s, k - i);
  }

  lemma {:induction false} ContainsItself(s: string)
    ensures Contains(s, s)
  {
    assert OccursAt(s, s, 0);
  }

  lemma {:induction false} PartOfSlice(t: string, i: nat, j: nat, s: string)
    requires i <= j <= |t| && Contains(t[i..j], s)
    ensures Contains(t, s)
  {
    var k: nat :| k <= j - i && OccursAt(t[i..j], s, k);
    assert OccursAt(t, s, i + k);
  }

  lemma {:induction false} AfterIsPart(t: string, s: string)
    requires t != "" && Contains(After(t), s)
    ensures Contains(t, s)
  {
    var b := Boundary(t, 1);
    var k := SkipBlanks(t[b..], 0);
    assert After(t) == t[b + k..|t|];
    PartOfSlice(t, b + k, |t|, s);
  }

  lemma {:induction false} SentencesAreParts(t: string, k: nat)
    requires k < |Sentences(t)|
    ensures Contains(t, Sentences(t)[k])
    decreases |t|
  {
    if t == "" || Boundary(t, 1) == |t| {
      ContainsItself(t);
    } else {
      SentencesUnfold(t);
      if k == 0 {
        ContainsItself(t[..Boundary(t, 1)]);
        PartOfSlice(t, 0, Boundary(t, 1), t[..Boundary(t, 1)]);
      } else {
        SentencesAreParts(After(t), k - 1);
        AfterIsPart(t, Sentences(After(t))[k - 1]);
      }
    }
  }
}
