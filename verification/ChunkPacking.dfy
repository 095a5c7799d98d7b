/** How chunk_transcript of feral-core/agents/ambient_transcript.py groups the sentences of a text into chunks. */
module ChunkPacking {
  import opened TextTools
  import opened TranscriptChunker

  // ---- Pieces and groups ----

  /** A full slice cut off the front of an over-long sentence, or a sentence or what is left of one. */
  datatype Piece = Slice(text: string) | Rest(text: string)

  function Pieces(s: string, n: nat): (ps: seq<Piece>)
    requires n >= 1
    ensures ps != [] && (|s| <= n ==> ps == [Rest(s)])
    decreases |s|
  {
    if |s| <= n then [Rest(s)] else [Slice(s[..n])] + Pieces(s[n..], n)
  }

  function AllPieces(sentences: seq<string>, n: nat): seq<Piece>
    requires n >= 1
  {
    if sentences == [] then []
    else AllPieces(sentences[..|sentences| - 1], n) + Pieces(sentences[|sentences| - 1], n)
  }

  /** What one chunk is made of: a slice as it is, or consecutive sentences joined by blanks. */
  datatype Group = Cut(piece: string) | Joined(parts: seq<string>)

  function Rests(parts: seq<string>): seq<Piece> {
    seq(|parts|, i requires 0 <= i < |parts| => Rest(parts[i]))
  }

  function PiecesOf(g: Group): seq<Piece> {
    match g
    case Cut(piece) => [Slice(piece)]
    case Joined(parts) => Rests(parts)
  }

  function Join(parts: seq<string>): string {
    if parts == [] then "" else if |parts| == 1 then parts[0]
    else Join(parts[..|parts| - 1]) + " " + parts[|parts| - 1]
  }

  function ChunkOf(g: Group): string {
    match g
    case Cut(piece) => piece
    case Joined(parts) => Strip(Join(parts))
  }

  function ChunkEach(groups: seq<Group>): seq<string> {
    seq(|groups|, i requires 0 <= i < |groups| => ChunkOf(groups[i]))
  }

  function Flatten(groups: seq<Group>): seq<Piece> {
    if groups == [] then [] else Flatten(groups[..|groups| - 1]) + PiecesOf(groups[|groups| - 1])
  }

  /** The text a group counts with when the next sentence is tried: a lone part of full length is not stripped yet. */
  function Held(g: Group, n: nat): string {
    match g
    case Cut(_) => ""
    case Joined(parts) => if |parts| == 1 && |parts[0]| == n then parts[0] else Strip(Join(parts))
  }

  predicate EndsInk(s: string) {
    s != "" && !IsSpace(s[|s| - 1])
  }

  /** Some parts, the first not ending in a blank and the others with no blank at either end. */
  predicate SoundParts(parts: seq<string>) {
    parts != [] && EndsInk(parts[0]) && AllTrimmed(parts[1..])
  }

  /** A slice is full; joined parts fit. */
  predicate SoundGroup(g: Group, n: nat) {
    match g
    case Cut(piece) => |piece| == n
    case Joined(parts) => SoundParts(parts) && 0 < |Held(g, n)| <= n
  }

  /** After joined parts, a new group is started with a sentence only when it would not have fitted. */
  predicate Greedy(g: Group, next: Group, n: nat) {
    g.Joined? && next.Joined? && next.parts != [] ==> |Held(g, n)| + 1 + |next.parts[0]| > n
  }

  /** The groups hold the pieces in order, none more than fits, and none less than would have fitted. */
  ghost predicate IsPacking(groups: seq<Group>, pieces: seq<Piece>, n: nat) {
    && Flatten(groups) == pieces
    && (forall i :: 0 <= i < |groups| ==> SoundGroup(groups[i], n))
    && (forall i :: 0 < i < |groups| ==> Greedy(groups[i - 1], groups[i], n))
  }

  // ---- Growing a packing ----

  lemma {:induction false} AddGroup(groups: seq<Group>, pieces: seq<Piece>, n: nat, g: Group)
    requires IsPacking(groups, pieces, n) && SoundGroup(g, n)
    requires groups != [] ==> Greedy(groups[|groups| - 1], g, n)
    ensures IsPacking(groups + [g], pieces + PiecesOf(g), n)
  {
    hide SoundGroup, Greedy, PiecesOf;
    assert (groups + [g])[..|groups|] == groups;
  }

  lemma {:induction false} WithoutLast(groups: seq<Group>, pieces: seq<Piece>, n: nat)
    requires IsPacking(groups, pieces, n) && groups != []
    ensures var m := |groups| - 1;
            && IsPacking(groups[..m], Flatten(groups[..m]), n) && pieces == Flatten(groups[..m]) + PiecesOf(groups[m])
            && SoundGroup(groups[m], n) && (m > 0 ==> Greedy(groups[m - 1], groups[m], n))
  {
    hide SoundGroup, Greedy, PiecesOf;
  }

  lemma {:induction false} RestsMore(parts: seq<string>, s: string)
    ensures Rests(parts + [s]) == Rests(parts) + [Rest(s)]
  {
  }

  lemma {:induction false} GrowLast(groups: seq<Group>, pieces: seq<Piece>, n: nat, s: string)
    requires IsPacking(groups, pieces, n) && groups != [] && groups[|groups| - 1].Joined?
    requires groups[|groups| - 1].parts != [] && SoundGroup(Joined(groups[|groups| - 1].parts + [s]), n)
    ensures IsPacking(groups[|groups| - 1 := Joined(groups[|groups| - 1].parts + [s])], pieces + [Rest(s)], n)
  {
    hide SoundGroup, IsPacking, Rests, Flatten;
    var m := |groups| - 1;
    var parts := groups[m].parts;
    var g := Joined(parts + [s]);
    WithoutLast(groups, pieces, n);
    assert m > 0 ==> Greedy(groups[m - 1], g, n);
    hide Greedy;
    AddGroup(groups[..m], Flatten(groups[..m]), n, g);
    RestsMore(parts, s);
    assert groups[m := g] == groups[..m] + [g];
    assert pieces + [Rest(s)] == Flatten(groups[..m]) + PiecesOf(g);
  }

  // ---- Blanks at the ends of joined parts ----

  lemma {:induction false} StripOfEndsInk(s: string)
    requires EndsInk(s)
    ensures Strip(s) == StripLeft(s) && Trimmed(Strip(s))
  {
    StripLeftIsTrimmed(s);
    hide IsSpace;
  }

  lemma {:induction false} SkipInFront(a: string, b: string)
    requires EndsInk(a)
    ensures SkipBlanks(a + b, 0) == SkipBlanks(a, 0) < |a|
  {
    SkippedAreBlanks(a, 0, |a| - 1);
    SkipSame(a, b, 0);
  }

  lemma {:induction false} SkipSame(a: string, b: string, i: nat)
    requires i <= |a| && SkipBlanks(a, i) < |a|
    ensures SkipBlanks(a + b, i) == SkipBlanks(a, i)
    decreases |a| - i
  {
    hide IsSpace;
    if i < |a| && IsSpace(a[i]) {
      SkipSame(a, b, i + 1);
    }
  }

  /** Stripping before or after a sentence is joined comes to the same. */
  lemma {:induction false} StripThenJoin(a: string, b: string)
    requires EndsInk(a) && Trimmed(b)
    ensures EndsInk(a + " " + b) && Strip(a + " " + b) == Strip(a) + " " + b
    ensures Strip(Strip(a) + " " + b) == Strip(a) + " " + b
  {
    var blank := " ";
    var joined := a + blank + b;
    assert joined[|joined| - 1] == b[|b| - 1];
    StripOfEndsInk(a);
    StripOfEndsInk(joined);
    assert joined == a + (blank + b);
    SkipInFront(a, blank + b);
    var again := Strip(a) + blank + b;
    assert again[0] == Strip(a)[0] && again[|again| - 1] == b[|b| - 1];
    StripOfTrimmed(again);
  }

  lemma {:induction false} JoinEndsInk(parts: seq<string>)
    requires SoundParts(parts)
    ensures EndsInk(Join(parts))
    decreases |parts|
  {
    if |parts| > 1 {
      var front := parts[..|parts| - 1];
      assert front[1..] == parts[1..][..|parts| - 2];
      JoinEndsInk(front);
      assert Trimmed(parts[1..][|parts| - 2]);
      StripThenJoin(Join(front), parts[|parts| - 1]);
    }
  }

  lemma {:induction false} JoinMore(parts: seq<string>, s: string)
    requires SoundParts(parts) && Trimmed(s)
    ensures SoundParts(parts + [s])
    ensures Join(parts + [s]) == Join(parts) + " " + s
    ensures Strip(Join(parts + [s])) == Strip(Join(parts)) + " " + s == Strip(Strip(Join(parts)) + " " + s)
  {
    var more := parts + [s];
    assert more[..|more| - 1] == parts && more[1..] == parts[1..] + [s];
    JoinEndsInk(parts);
    StripThenJoin(Join(parts), s);
  }

  // ---- The packing of a text ----

  lemma {:induction false} NonEmptyAppend(a: seq<string>, b: seq<string>)
    ensures NonEmpty(a + b) == NonEmpty(a) + NonEmpty(b)
    decreases |a|
  {
    if a == [] {
      assert a + b == b;
    } else {
      assert (a + b)[1..] == a[1..] + b;
      NonEmptyAppend(a[1..], b);
    }
  }

  lemma {:induction false} NonEmptyMore(chunks: seq<string>, c: string)
    ensures NonEmpty(chunks + [c]) == if c == "" then NonEmpty(chunks) else NonEmpty(chunks) + [c]
  {
    NonEmptyAppend(chunks, [c]);
    assert [c][1..] == [];
  }

  lemma {:induction false} ChunkEachMore(groups: seq<Group>, g: Group)
    ensures ChunkEach(groups + [g]) == ChunkEach(groups) + [ChunkOf(g)]
  {
    hide ChunkOf;
  }

  /** The packing so far is the groups so far: closed chunks, and the held text of a last group of joined parts. */
  ghost predicate Holds(p: Packing, groups: seq<Group>, n: nat) {
    if groups == [] || groups[|groups| - 1].Cut? then p.current == "" && NonEmpty(p.chunks) == ChunkEach(groups)
    else
      var m := |groups| - 1;
      p.current == Held(groups[m], n) && NonEmpty(p.chunks) == ChunkEach(groups[..m])
  }

  lemma {:induction false} StripOfHeld(g: Group, n: nat)
    requires g.Joined? && SoundParts(g.parts)
    ensures Strip(Held(g, n)) == ChunkOf(g) && Trimmed(ChunkOf(g))
  {
    JoinEndsInk(g.parts);
    StripOfEndsInk(Join(g.parts));
    StripOfTrimmed(ChunkOf(g));
    hide Strip, Trimmed, SoundParts;
  }

  lemma StripOfNothing()
    ensures Strip("") == ""
  {
  }

  lemma {:induction false} FlushIsClosing(p: Packing)
    requires p.current == "" || Strip(p.current) != ""
    ensures NonEmpty(Flush(p)) == NonEmpty(Closed(p)) == NonEmpty(p.chunks + [Strip(p.current)])
  {
    StripOfNothing();
    hide Strip, NonEmpty;
    NonEmptyMore(p.chunks, Strip(p.current));
    assert p.chunks + [] == p.chunks;
  }

  lemma {:induction false} ChunkEachLast(groups: seq<Group>)
    requires groups != []
    ensures ChunkEach(groups) == ChunkEach(groups[..|groups| - 1]) + [ChunkOf(groups[|groups| - 1])]
  {
    hide ChunkOf;
  }

  lemma {:induction false} LastIsSound(groups: seq<Group>, pieces: seq<Piece>, n: nat)
    requires IsPacking(groups, pieces, n) && groups != []
    ensures SoundGroup(groups[|groups| - 1], n)
  {
    hide SoundGroup;
  }

  /** Closing the held text gives the chunks of all groups. */
  lemma {:induction false} FlushHolds(p: Packing, groups: seq<Group>, pieces: seq<Piece>, n: nat)
    requires IsPacking(groups, pieces, n) && Holds(p, groups, n)
    ensures NonEmpty(p.chunks + [Strip(p.current)]) == ChunkEach(groups)
    ensures NonEmpty(Flush(p)) == ChunkEach(groups) && NonEmpty(Closed(p)) == ChunkEach(groups)
  {
    hide IsPacking, NonEmpty, Strip, ChunkEach, ChunkOf, Flush, Closed, SoundParts, Held;
    NonEmptyMore(p.chunks, Strip(p.current));
    if groups != [] && groups[|groups| - 1].Joined? {
      LastIsSound(groups, pieces, n);
      StripOfHeld(groups[|groups| - 1], n);
      ChunkEachLast(groups);
    } else {
      StripOfNothing();
    }
    FlushIsClosing(p);
  }

  lemma {:induction false} LonePart(s: string, n: nat)
    requires EndsInk(s) && |s| <= n
    ensures SoundGroup(Joined([s]), n) && PiecesOf(Joined([s])) == [Rest(s)]
    ensures Held(Joined([s]), n) == if |s| == n then s else Strip(s)
  {
    StripOfEndsInk(s);
    hide Strip;
    assert Join([s]) == s && [s][1..] == [];
  }

  /** Placing it closes what was held and holds it. */
  lemma {:induction false} PlaceAlone(p: Packing, n: nat, s: string)
    requires EndsInk(s) && |s| <= n
    requires p.current == "" || (|p.current| + 1 + |s| > n && Trimmed(s))
    ensures Place(p, s, n).current == if |s| == n then s else Strip(s)
    ensures NonEmpty(Place(p, s, n).chunks) == NonEmpty(p.chunks + [Strip(p.current)])
  {
    hide Strip, NonEmpty, EndsInk, Trimmed;
    if p.current == "" {
      StripAfterBlank(s);
      StripOfNothing();
      NonEmptyMore(p.chunks, "");
      assert p.current + " " + s == " " + s;
    } else {
      StripOfTrimmed(s);
    }
  }

  /** A sentence, or what is left of one, opens a group of its own. */
  lemma {:induction false} OpenGroup(p: Packing, groups: seq<Group>, pieces: seq<Piece>, n: nat, s: string)
    requires n >= 1 && IsPacking(groups, pieces, n) && Holds(p, groups, n)
    requires EndsInk(s) && |s| <= n
    requires p.current == "" || (|p.current| + 1 + |s| > n && Trimmed(s))
    ensures IsPacking(groups + [Joined([s])], pieces + [Rest(s)], n) && Holds(Place(p, s, n), groups + [Joined([s])], n)
  {
    hide IsPacking, NonEmpty, Strip, ChunkEach, ChunkOf, EndsInk, Trimmed, Place, SoundParts, Held;
    LonePart(s, n);
    if groups != [] {
      LastIsSound(groups, pieces, n);
    }
    AddGroup(groups, pieces, n, Joined([s]));
    FlushHolds(p, groups, pieces, n);
    PlaceAlone(p, n, s);
    assert (groups + [Joined([s])])[..|groups|] == groups;
  }

  lemma {:induction false} StripAfterBlank(s: string)
    requires EndsInk(s)
    ensures Strip(" " + s) == Strip(s)
  {
    var blank := " ";
    var t := blank + s;
    assert t[|t| - 1] == s[|s| - 1] && IsSpace(t[0]);
    StripOfEndsInk(s);
    StripOfEndsInk(t);
    SkipShift(s, 0);
    assert SkipBlanks(t, 0) == SkipBlanks(t, 1);
  }

  lemma {:induction false} SkipShift(s: string, i: nat)
    requires i <= |s|
    ensures SkipBlanks(" " + s, i + 1) == SkipBlanks(s, i) + 1
    decreases |s| - i
  {
    var t := " " + s;
    hide IsSpace;
    if i < |s| {
      assert t[i + 1] == s[i];
      SkipShift(s, i + 1);
    }
  }

  /** A sentence that fits joins the last group. */
  lemma {:induction false} ExtendGroup(p: Packing, groups: seq<Group>, pieces: seq<Piece>, n: nat, s: string)
    requires IsPacking(groups, pieces, n) && Holds(p, groups, n)
    requires groups != [] && groups[|groups| - 1].Joined? && Trimmed(s) && |p.current| + 1 + |s| <= n
    ensures var more := groups[|groups| - 1 := Joined(groups[|groups| - 1].parts + [s])];
            IsPacking(more, pieces + [Rest(s)], n) && Holds(Place(p, s, n), more, n)
  {
    var m := |groups| - 1;
    var parts := groups[m].parts;
    var more := groups[m := Joined(parts + [s])];
    assert SoundGroup(groups[m], n);
    assert p.current == Strip(Join(parts));
    JoinMore(parts, s);
    hide Strip, Join, SoundParts, Trimmed;
    assert SoundGroup(Joined(parts + [s]), n);
    GrowLast(groups, pieces, n, s);
    assert more[..m] == groups[..m];
  }

  /** One round of the hard split closes what is held and makes a full slice a group. */
  lemma {:induction false} CutGroup(p: Packing, groups: seq<Group>, pieces: seq<Piece>, n: nat, slice: string)
    requires n >= 1 && |slice| == n && IsPacking(groups, pieces, n) && Holds(p, groups, n)
    ensures IsPacking(groups + [Cut(slice)], pieces + [Slice(slice)], n)
    ensures Holds(Packing(Flush(p) + [slice], ""), groups + [Cut(slice)], n)
  {
    hide IsPacking, NonEmpty, ChunkEach, Flush, Strip;
    FlushHolds(p, groups, pieces, n);
    NonEmptyMore(Flush(p), slice);
    ChunkEachMore(groups, Cut(slice));
    AddGroup(groups, pieces, n, Cut(slice));
  }

  lemma {:induction false} TailEndsInk(s: string, n: nat)
    requires n < |s| && EndsInk(s)
    ensures EndsInk(s[n..])
  {
    assert s[n..][|s| - n - 1] == s[|s| - 1];
  }

  lemma {:induction false} PiecesUnfold(s: string, n: nat, pieces: seq<Piece>)
    requires n >= 1 && |s| > n
    ensures pieces + Pieces(s, n) == pieces + [Slice(s[..n])] + Pieces(s[n..], n)
  {
  }

  /** The hard split makes each full slice a group; what is left is not placed yet. */
  lemma {:induction false} SplitGroups(p: Packing, groups: seq<Group>, pieces: seq<Piece>, n: nat, s: string)
    returns (more: seq<Group>, before: seq<Piece>)
    requires n >= 1 && EndsInk(s) && IsPacking(groups, pieces, n) && Holds(p, groups, n)
    ensures var split := HardSplit(p, s, n);
            && EndsInk(split.1) && (split.0.current == "" || split == (p, s))
            && IsPacking(more, before, n) && Holds(split.0, more, n)
            && before + [Rest(split.1)] == pieces + Pieces(s, n)
    decreases |s|
  {
    hide IsPacking, Holds, EndsInk, Flush, Pieces, HardSplit;
    HardSplitUnfold(p, s, n);
    if |s| <= n {
      more, before := groups, pieces;
    } else {
      PiecesUnfold(s, n, pieces);
      CutGroup(p, groups, pieces, n, s[..n]);
      TailEndsInk(s, n);
      more, before := SplitGroups(Packing(Flush(p) + [s[..n]], ""), groups + [Cut(s[..n])], pieces + [Slice(s[..n])], n,
                                  s[n..]);
    }
  }

  lemma {:induction false} FeedGroups(p: Packing, groups: seq<Group>, pieces: seq<Piece>, n: nat, s: string)
    returns (more: seq<Group>)
    requires n >= 1 && Trimmed(s) && IsPacking(groups, pieces, n) && Holds(p, groups, n)
    ensures IsPacking(more, pieces + Pieces(s, n), n) && Holds(Feed(p, s, n), more, n)
  {
    hide IsPacking, Holds, HardSplit, Place, Pieces;
    var cuts, before := SplitGroups(p, groups, pieces, n, s);
    var split := HardSplit(p, s, n);
    HardSplitUnfold(p, s, n);
    if |s| > n || !Extends(p, cuts, n, s) {
      more := cuts + [Joined([split.1])];
      if |s| <= n {
        NotExtending(p, cuts, n, s);
      }
      OpenGroup(split.0, cuts, before, n, split.1);
    } else {
      more := cuts[|cuts| - 1 := Joined(cuts[|cuts| - 1].parts + [s])];
      ExtendGroup(p, cuts, before, n, s);
    }
  }

  /** A sentence that fits beside what is held. */
  predicate Extends(p: Packing, groups: seq<Group>, n: nat, s: string) {
    groups != [] && groups[|groups| - 1].Joined? && |p.current| + 1 + |s| <= n
  }

  lemma {:induction false} NotExtending(p: Packing, groups: seq<Group>, n: nat, s: string)
    requires Holds(p, groups, n) && !Extends(p, groups, n, s)
    ensures p.current == "" || |p.current| + 1 + |s| > n
  {
  }

  lemma {:induction false} PackGroups(sentences: seq<string>, n: nat) returns (groups: seq<Group>)
    requires n >= 1 && AllTrimmed(sentences)
    ensures IsPacking(groups, AllPieces(sentences, n), n) && Holds(Pack(sentences, n), groups, n)
    decreases |sentences|
  {
    if sentences == [] {
      groups := [];
    } else {
      var front, s := sentences[..|sentences| - 1], sentences[|sentences| - 1];
      var before := PackGroups(front, n);
      assert Trimmed(s);
      hide IsPacking, Holds, Trimmed, Feed;
      groups := FeedGroups(Pack(front, n), before, AllPieces(front, n), n, s);
    }
  }

  /**
   * The chunks of a text that does not fit into one: its sentences, each over-long one replaced by its full slices
   * and the rest of it, are grouped in order; a slice is a chunk as it is, and other pieces are joined greedily.
   */
  lemma {:induction false} ChunksArePacked(text: string, n: nat) returns (groups: seq<Group>)
    requires n >= 1 && |Strip(text)| > n
    ensures IsPacking(groups, AllPieces(Sentences(Strip(text)), n), n) && Chunks(text, n) == ChunkEach(groups)
  {
    var sentences := Sentences(Strip(text));
    StripIsTrimmed(text);
    SentencesAreTrimmed(Strip(text));
    groups := PackGroups(sentences, n);
    FlushHolds(Pack(sentences, n), groups, AllPieces(sentences, n), n);
    hide Sentences, Strip, Pack, IsPacking, ChunkEach, NonEmpty, Closed, AllPieces;
  }

  // ---- A sentence that fits is not cut ----

  lemma {:induction false} Locate(groups: seq<Group>, m: nat) returns (i: nat, j: nat)
    requires m < |Flatten(groups)|
    ensures i < |groups| && j < |PiecesOf(groups[i])| && |Flatten(groups[..i])| + j == m
    ensures PiecesOf(groups[i])[j] == Flatten(groups)[m]
    decreases |groups|
  {
    hide PiecesOf;
    var front := groups[..|groups| - 1];
    if m < |Flatten(front)| {
      i, j := Locate(front, m);
      assert front[..i] == groups[..i];
    } else {
      i, j := |groups| - 1, m - |Flatten(front)|;
    }
  }

  lemma {:induction false} FittingSentenceIsPiece(sentences: seq<string>, n: nat, k: nat)
    requires n >= 1 && k < |sentences| && |sentences[k]| <= n
    ensures |AllPieces(sentences[..k], n)| < |AllPieces(sentences, n)|
    ensures AllPieces(sentences, n)[|AllPieces(sentences[..k], n)|] == Rest(sentences[k])
    decreases |sentences|
  {
    var front := sentences[..|sentences| - 1];
    if k < |front| {
      FittingSentenceIsPiece(front, n, k);
      assert front[..k] == sentences[..k];
    } else {
      assert front == sentences[..k];
    }
  }

  lemma {:induction false} JoinContains(parts: seq<string>, j: nat)
    requires j < |parts|
    ensures Contains(Join(parts), parts[j])
    decreases |parts|
  {
    var m := |parts| - 1;
    var front := parts[..m];
    if m == 0 {
      ContainsItself(parts[0]);
    } else if j < m {
      JoinContains(front, j);
      ContainsLeft(Join(front), " " + parts[m], front[j]);
      assert Join(front) + " " + parts[m] == Join(front) + (" " + parts[m]);
    } else {
      ContainsRight(Join(front) + " ", parts[m]);
    }
  }

  lemma {:induction false} ContainsLeft(a: string, b: string, s: string)
    requires Contains(a, s)
    ensures Contains(a + b, s)
  {
    var k: nat :| k <= |a| && OccursAt(a, s, k);
    assert OccursAt(a + b, s, k);
  }

  lemma {:induction false} ContainsRight(a: string, s: string)
    ensures Contains(a + s, s)
  {
    assert OccursAt(a + s, s, |a|);
  }

  /**
   * In a text that does not fit into one chunk, a sentence that fits is a part of one chunk: the chunk whose pieces
   * are those at the sentence's own place. (A text that fits is one chunk.)
   */
  lemma {:induction false} FittingSentenceIsWhole(text: string, n: nat, k: nat)
    returns (groups: seq<Group>, i: nat, j: nat)
    requires n >= 1 && |Strip(text)| > n
    requires k < |Sentences(Strip(text))| && |Sentences(Strip(text))[k]| <= n
    ensures var sentences := Sentences(Strip(text));
            && IsPacking(groups, AllPieces(sentences, n), n) && Chunks(text, n) == ChunkEach(groups)
            && i < |groups| && groups[i].Joined? && j < |groups[i].parts|
            && |Flatten(groups[..i])| + j == |AllPieces(sentences[..k], n)|
            && groups[i].parts[j] == sentences[k] && Contains(ChunkOf(groups[i]), sentences[k])
  {
    var sentences := Sentences(Strip(text));
    StripIsTrimmed(text);
    SentencesAreTrimmed(Strip(text));
    assert Trimmed(sentences[k]);
    groups := ChunksArePacked(text, n);
    hide Chunks, Sentences, Strip, Trimmed, AllPieces, Contains, Join, SoundGroup, Greedy;
    FittingSentenceIsPiece(sentences, n, k);
    i, j := Locate(groups, |AllPieces(sentences[..k], n)|);
    JoinContains(groups[i].parts, j);
    StripKeepsPart(Join(groups[i].parts), sentences[k]);
  }

  /** So, wherever the text is cut, some chunk contains it. */
  lemma {:induction false} FittingSentenceIsContained(text: string, n: nat, k: nat)
    requires n >= 1 && Strip(text) != "" && k < |Sentences(Strip(text))|
    requires |Sentences(Strip(text))[k]| <= n
    ensures exists c :: c in Chunks(text, n) && Contains(c, Sentences(Strip(text))[k])
  {
    hide Sentences, Strip, Contains;
    if |Strip(text)| <= n {
      SentencesAreParts(Strip(text), k);
      assert Chunks(text, n) == [Strip(text)];
    } else {
      var groups, i, j := FittingSentenceIsWhole(text, n, k);
      hide IsPacking, ChunkOf, AllPieces, Chunks;
      assert ChunkEach(groups)[i] == ChunkOf(groups[i]);
    }
  }

  // ---- When every sentence fits, packing is greedy ----

  function JoinEach(groups: seq<seq<string>>): seq<string> {
    seq(|groups|, i requires 0 <= i < |groups| => Join(groups[i]))
  }

  function FlattenParts(groups: seq<seq<string>>): seq<string> {
    if groups == [] then [] else FlattenParts(groups[..|groups| - 1]) + groups[|groups| - 1]
  }

  /** Each chunk joins a run of consecutive sentences, and the next sentence would not have fitted. */
  ghost predicate GreedyPacking(groups: seq<seq<string>>, sentences: seq<string>, n: nat) {
    && FlattenParts(groups) == sentences
    && (forall i :: 0 <= i < |groups| ==> groups[i] != [] && |Join(groups[i])| <= n)
    && (forall i :: 0 < i < |groups| ==> |Join(groups[i - 1])| + 1 + |groups[i][0]| > n)
  }

  function PartsEach(groups: seq<Group>): seq<seq<string>>
    requires AllJoined(groups)
  {
    seq(|groups|, i requires 0 <= i < |groups| => groups[i].parts)
  }

  predicate AllJoined(groups: seq<Group>) {
    forall i :: 0 <= i < |groups| ==> groups[i].Joined?
  }

  lemma {:induction false} FittingPieces(sentences: seq<string>, n: nat)
    requires n >= 1 && Within(sentences, n)
    ensures AllPieces(sentences, n) == Rests(sentences)
    decreases |sentences|
  {
    if sentences != [] {
      var m := |sentences| - 1;
      FittingPieces(sentences[..m], n);
      RestsMore(sentences[..m], sentences[m]);
      assert sentences == sentences[..m] + [sentences[m]];
      hide AllPieces;
    }
  }

  lemma {:induction false} SplitEqual<T>(a: seq<T>, b: seq<T>, c: seq<T>, d: seq<T>)
    requires a + b == c + d && |a| == |c|
    ensures a == c && b == d
  {
    assert a == (a + b)[..|a|] && c == (c + d)[..|a|];
    assert b == (a + b)[|a|..] && d == (c + d)[|a|..];
  }

  lemma {:induction false} RestsSplit(parts: seq<string>, k: nat)
    requires k <= |parts|
    ensures Rests(parts) == Rests(parts[..k]) + Rests(parts[k..]) && |Rests(parts[..k])| == k
  {
  }

  lemma {:induction false} PartsEachMore(groups: seq<Group>)
    requires groups != [] && AllJoined(groups[..|groups| - 1]) && groups[|groups| - 1].Joined?
    ensures AllJoined(groups)
    ensures FlattenParts(PartsEach(groups)) ==
            FlattenParts(PartsEach(groups[..|groups| - 1])) + groups[|groups| - 1].parts
  {
    var m := |groups| - 1;
    assert PartsEach(groups)[..m] == PartsEach(groups[..m]) && PartsEach(groups)[m] == groups[m].parts;
  }

  /** Groups that hold no slice are joined parts, and the parts in order are the pieces. */
  lemma {:induction false} GroupsOfRests(groups: seq<Group>, sentences: seq<string>)
    requires Flatten(groups) == Rests(sentences)
    ensures AllJoined(groups) && FlattenParts(PartsEach(groups)) == sentences
    decreases |groups|
  {
    assert |Rests(sentences)| == |sentences|;
    if groups != [] {
      var m := |groups| - 1;
      var cut := |Flatten(groups[..m])|;
      RestsSplit(sentences, cut);
      SplitEqual(Flatten(groups[..m]), PiecesOf(groups[m]), Rests(sentences[..cut]), Rests(sentences[cut..]));
      hide Rests, Flatten, PiecesOf, AllJoined, PartsEach, FlattenParts;
      GroupsOfRests(groups[..m], sentences[..cut]);
      OnlyRests(groups[m], sentences[cut..]);
      PartsEachMore(groups);
      assert sentences == sentences[..cut] + sentences[cut..];
    }
  }

  lemma {:induction false} CutIsSlice(g: Group)
    ensures g.Cut? ==> |PiecesOf(g)| == 1 && PiecesOf(g)[0].Slice?
  {
  }

  lemma {:induction false} OnlyRests(g: Group, parts: seq<string>)
    requires PiecesOf(g) == Rests(parts)
    ensures g == Joined(parts)
  {
    CutIsSlice(g);
    assert |PiecesOf(g)| > 0 ==> PiecesOf(g)[0] == Rests(parts)[0];
    assert |g.parts| == |PiecesOf(g)| == |parts|;
    forall i | 0 <= i < |parts| ensures g.parts[i] == parts[i] {
      assert PiecesOf(g)[i] == Rest(g.parts[i]) && Rests(parts)[i] == Rest(parts[i]);
    }
  }

  lemma {:induction false} PartsAreSentences(groups: seq<seq<string>>, i: nat)
    requires i < |groups|
    ensures forall s :: s in groups[i] ==> s in FlattenParts(groups)
    decreases |groups|
  {
    if i < |groups| - 1 {
      PartsAreSentences(groups[..|groups| - 1], i);
    }
  }

  lemma {:induction false} JoinOfTrimmed(parts: seq<string>)
    requires parts != [] && AllTrimmed(parts)
    ensures Trimmed(Join(parts))
    decreases |parts|
  {
    if |parts| > 1 {
      JoinOfTrimmed(parts[..|parts| - 1]);
      var front, last := Join(parts[..|parts| - 1]), parts[|parts| - 1];
      var joined := front + " " + last;
      assert joined[0] == front[0] && joined[|joined| - 1] == last[|last| - 1];
      hide IsSpace;
    }
  }

  lemma {:induction false} HeldOfTrimmed(parts: seq<string>, n: nat)
    requires parts != [] && AllTrimmed(parts)
    ensures Held(Joined(parts), n) == Join(parts) == ChunkOf(Joined(parts))
  {
    JoinOfTrimmed(parts);
    StripOfTrimmed(Join(parts));
  }

  /** When every sentence fits and the text does not, the chunks are the greedy packing of the sentences. */
  lemma {:induction false} ChunksAreGreedy(text: string, n: nat)
    requires n >= 1 && |Strip(text)| > n
    requires Within(Sentences(Strip(text)), n)
    ensures exists groups ::
              GreedyPacking(groups, Sentences(Strip(text)), n) && Chunks(text, n) == JoinEach(groups)
  {
    hide Chunks, Sentences, Strip, Trimmed, AllPieces, Join, ChunkOf, Held, GreedyPacking, IsPacking, Within;
    hide Flatten, FlattenParts, JoinEach, ChunkEach, AllTrimmed;
    var sentences := Sentences(Strip(text));
    var groups := ChunksArePacked(text, n);
    FittingPieces(sentences, n);
    SentencesOfTextAreTrimmed(text);
    var parts := TrimmedGroups(groups, sentences, n);
    assert GreedyPacking(parts, sentences, n) && Chunks(text, n) == JoinEach(parts);
  }

  lemma {:induction false} SentencesOfTextAreTrimmed(text: string)
    requires Strip(text) != ""
    ensures AllTrimmed(Sentences(Strip(text)))
  {
    StripIsTrimmed(text);
    SentencesAreTrimmed(Strip(text));
  }

  lemma {:induction false} TrimmedGroups(groups: seq<Group>, sentences: seq<string>, n: nat)
    returns (parts: seq<seq<string>>)
    requires IsPacking(groups, Rests(sentences), n) && AllTrimmed(sentences)
    ensures GreedyPacking(parts, sentences, n) && JoinEach(parts) == ChunkEach(groups)
  {
    hide Join, ChunkOf, Held, AllTrimmed, GreedyPacking, SoundGroup, Greedy, Flatten, FlattenParts;
    GroupsOfRests(groups, sentences);
    parts := PartsEach(groups);
    GroupsAreGreedy(groups, sentences, n);
    assert JoinEach(parts) == ChunkEach(groups);
  }

  lemma {:induction false} SoundOfTrimmed(groups: seq<Group>, pieces: seq<Piece>, n: nat, i: nat)
    requires IsPacking(groups, pieces, n) && i < |groups| && groups[i].Joined? && AllTrimmed(groups[i].parts)
    ensures groups[i].parts != [] && |Join(groups[i].parts)| <= n
    ensures Held(groups[i], n) == Join(groups[i].parts) == ChunkOf(groups[i])
  {
    hide Flatten, Greedy, AllTrimmed, Join, Held, ChunkOf;
    assert SoundGroup(groups[i], n);
    HeldOfTrimmed(groups[i].parts, n);
  }

  lemma {:induction false} PartsAreTrimmed(groups: seq<seq<string>>, i: nat)
    requires i < |groups| && AllTrimmed(FlattenParts(groups))
    ensures AllTrimmed(groups[i])
  {
    hide Trimmed;
    PartsAreSentences(groups, i);
    forall k | 0 <= k < |groups[i]| ensures Trimmed(groups[i][k]) {
      assert groups[i][k] in FlattenParts(groups);
    }
  }

  lemma {:induction false} GroupsAreGreedy(groups: seq<Group>, sentences: seq<string>, n: nat)
    requires IsPacking(groups, Rests(sentences), n) && AllJoined(groups) && AllTrimmed(sentences)
    requires FlattenParts(PartsEach(groups)) == sentences
    ensures GreedyPacking(PartsEach(groups), sentences, n)
    ensures forall i :: 0 <= i < |groups| ==> Join(groups[i].parts) == ChunkOf(groups[i])
  {
    hide FlattenParts, Flatten, SoundGroup, Rests, AllTrimmed, Join, Held, ChunkOf;
    var parts := PartsEach(groups);
    forall i | 0 <= i < |groups|
      ensures parts[i] != [] && |Join(parts[i])| <= n
      ensures Held(groups[i], n) == Join(groups[i].parts) == ChunkOf(groups[i])
    {
      PartsAreTrimmed(parts, i);
      SoundOfTrimmed(groups, Rests(sentences), n, i);
    }
    forall i | 0 < i < |parts| ensures |Join(parts[i - 1])| + 1 + |parts[i][0]| > n {
      assert Greedy(groups[i - 1], groups[i], n);
    }
  }

  // ---- Blank chunks ----

  /** The k-th slice of a sentence is cut off it, and holds blanks only. */
  predicate BlankSlice(s: string, n: nat, k: nat) {
    k * n <= (k + 1) * n < |s| && Ink(s[k * n..(k + 1) * n]) == ""
  }

  predicate HasBlankSlice(s: string, n: nat)
    requires n >= 1
    decreases |s|
  {
    |s| > n && (Ink(s[..n]) == "" || HasBlankSlice(s[n..], n))
  }

  lemma {:induction false} NextSlice(s: string, n: nat, k: nat)
    requires n >= 1 && |s| > n
    ensures BlankSlice(s[n..], n, k) <==> BlankSlice(s, n, k + 1)
  {
    assert (k + 1) * n == k * n + n && (k + 2) * n == (k + 1) * n + n;
    if (k + 2) * n < |s| {
      assert s[n..][k * n..(k + 1) * n] == s[(k + 1) * n..(k + 2) * n];
    }
  }

  lemma {:induction false} HasBlankSliceMeaning(s: string, n: nat)
    requires n >= 1
    ensures HasBlankSlice(s, n) <==> exists k: nat :: BlankSlice(s, n, k)
    decreases |s|
  {
    if |s| > n {
      HasBlankSliceMeaning(s[n..], n);
      assert BlankSlice(s, n, 0) <==> Ink(s[..n]) == "" by {
        assert s[0 * n..(0 + 1) * n] == s[..n];
      }
      forall k: nat ensures BlankSlice(s[n..], n, k) <==> BlankSlice(s, n, k + 1) {
        NextSlice(s, n, k);
      }
      hide BlankSlice, Ink;
      if k: nat :| BlankSlice(s[n..], n, k) {
        assert BlankSlice(s, n, k + 1);
      }
      if k: nat :| BlankSlice(s, n, k) {
        assert k > 0 ==> BlankSlice(s[n..], n, k - 1) && BlankSlice(s, n, (k - 1) + 1);
      }
    } else {
      forall k: nat ensures !BlankSlice(s, n, k) {
        assert (k + 1) * n == k * n + n;
      }
    }
  }

  predicate IsBlank(c: string) {
    c != "" && Ink(c) == ""
  }

  predicate HasBlank(chunks: seq<string>) {
    exists i :: 0 <= i < |chunks| && IsBlank(chunks[i])
  }

  lemma {:induction false} HasBlankMore(chunks: seq<string>, c: string)
    ensures HasBlank(chunks + [c]) <==> HasBlank(chunks) || IsBlank(c)
  {
    hide IsBlank;
    assert (chunks + [c])[|chunks|] == c;
    if i :| 0 <= i < |chunks| && IsBlank(chunks[i]) {
      assert (chunks + [c])[i] == chunks[i];
    }
  }

  lemma {:induction false} StrippedIsNotBlank(s: string)
    ensures !IsBlank(Strip(s))
  {
    StripIsTrimmed(s);
    hide Strip;
  }

  lemma {:induction false} FlushBlank(p: Packing)
    ensures HasBlank(Flush(p)) <==> HasBlank(p.chunks)
    ensures HasBlank(Closed(p)) <==> HasBlank(p.chunks)
    ensures HasBlank(p.chunks + [Strip(p.current)]) <==> HasBlank(p.chunks)
  {
    StrippedIsNotBlank(p.current);
    hide IsBlank, HasBlank, Strip;
    HasBlankMore(p.chunks, Strip(p.current));
    assert p.chunks + [] == p.chunks;
  }

  lemma {:induction false} HardSplitBlank(p: Packing, s: string, n: nat)
    requires n >= 1
    ensures HasBlank(HardSplit(p, s, n).0.chunks) <==> HasBlank(p.chunks) || HasBlankSlice(s, n)
    decreases |s|
  {
    hide HasBlank, Flush, Ink, HardSplit;
    HardSplitUnfold(p, s, n);
    if |s| > n {
      HardSplitBlank(Packing(Flush(p) + [s[..n]], ""), s[n..], n);
      FlushBlank(p);
      HasBlankMore(Flush(p), s[..n]);
    }
  }

  /** Some sentence has a slice of blanks. */
  predicate SomeBlankSlice(sentences: seq<string>, n: nat)
    requires n >= 1
  {
    exists k :: 0 <= k < |sentences| && HasBlankSlice(sentences[k], n)
  }

  lemma {:induction false} SomeBlankSliceMore(sentences: seq<string>, n: nat)
    requires n >= 1 && sentences != []
    ensures var m := |sentences| - 1;
            SomeBlankSlice(sentences, n) <==> SomeBlankSlice(sentences[..m], n) || HasBlankSlice(sentences[m], n)
  {
    hide HasBlankSlice;
    var m := |sentences| - 1;
    if k :| 0 <= k < m && HasBlankSlice(sentences[..m][k], n) {
      assert sentences[..m][k] == sentences[k];
    }
    if k :| 0 <= k <= m && HasBlankSlice(sentences[k], n) {
      assert k < m ==> sentences[..m][k] == sentences[k];
    }
  }

  lemma {:induction false} FeedBlank(p: Packing, s: string, n: nat)
    requires n >= 1
    ensures HasBlank(Feed(p, s, n).chunks) <==> HasBlank(p.chunks) || HasBlankSlice(s, n)
  {
    hide HasBlank, HardSplit, Strip;
    if s != "" {
      HardSplitBlank(p, s, n);
      FlushBlank(HardSplit(p, s, n).0);
    }
  }

  lemma {:induction false} PackBlank(sentences: seq<string>, n: nat)
    requires n >= 1
    ensures HasBlank(Pack(sentences, n).chunks) <==> SomeBlankSlice(sentences, n)
    decreases |sentences|
  {
    if sentences != [] {
      var front := sentences[..|sentences| - 1];
      hide HasBlank, SomeBlankSlice, Feed, HasBlankSlice;
      PackBlank(front, n);
      SomeBlankSliceMore(sentences, n);
      FeedBlank(Pack(front, n), sentences[|sentences| - 1], n);
    }
  }

  lemma {:induction false} ShortTextHasNoSlice(t: string, n: nat)
    requires n >= 1 && |t| <= n
    ensures !SomeBlankSlice(Sentences(t), n)
  {
    forall k | 0 <= k < |Sentences(t)| ensures !HasBlankSlice(Sentences(t)[k], n) {
      SentencesAreParts(t, k);
      assert |Sentences(t)[k]| <= n;
    }
  }

  lemma {:induction false} BlankChunk(text: string, n: nat)
    requires n >= 1
    ensures HasBlank(Chunks(text, n)) <==> SomeBlankSlice(Sentences(Strip(text)), n)
  {
    var t := Strip(text);
    hide Sentences, Strip, Pack, HasBlankSlice, SomeBlankSlice, IsBlank, Closed, NonEmpty;
    if |t| <= n {
      ShortTextHasNoSlice(t, n);
      StrippedIsNotBlank(text);
    } else {
      var p := Pack(Sentences(t), n);
      PackBlank(Sentences(t), n);
      FlushBlank(p);
      NonEmptyBlank(Closed(p));
    }
  }

  lemma {:induction false} NonEmptyBlank(chunks: seq<string>)
    ensures HasBlank(NonEmpty(chunks)) <==> HasBlank(chunks)
  {
    NonEmptyKeeps(chunks);
    hide NonEmpty, Ink;
    if i :| 0 <= i < |chunks| && IsBlank(chunks[i]) {
      assert chunks[i] in NonEmpty(chunks);
    }
    if i :| 0 <= i < |NonEmpty(chunks)| && IsBlank(NonEmpty(chunks)[i]) {
      assert NonEmpty(chunks)[i] in chunks;
    }
  }

  /** Some chunk holds blanks only exactly when one of the full slices cut off an over-long sentence does. */
  lemma {:induction false} BlankChunkIff(text: string, n: nat)
    requires n >= 1
    ensures (exists c :: c in Chunks(text, n) && Ink(c) == "") <==>
            exists i: nat, k: nat :: i < |Sentences(Strip(text))| && BlankSlice(Sentences(Strip(text))[i], n, k)
  {
    BlankChunk(text, n);
    ChunksFit(text, n);
    var sentences, chunks := Sentences(Strip(text)), Chunks(text, n);
    forall i | 0 <= i < |sentences|
      ensures HasBlankSlice(sentences[i], n) <==> exists k: nat :: BlankSlice(sentences[i], n, k)
    {
      HasBlankSliceMeaning(sentences[i], n);
    }
    hide Sentences, Strip, Chunks, HasBlankSlice, BlankSlice, Ink;
    if c :| c in chunks && Ink(c) == "" {
      var i :| 0 <= i < |chunks| && chunks[i] == c;
      assert IsBlank(chunks[i]);
    }
    if HasBlank(chunks) {
      var i :| 0 <= i < |chunks| && IsBlank(chunks[i]);
      assert chunks[i] in chunks;
    }
  }

  lemma OneSentence()
    ensures Strip("a b") == "a b" && Sentences("a b") == ["a b"]
  {
    var t := "a b";
    assert Strip(t) == t by {
      assert SkipBlanks(t, 0) == 0 && DropBlanks(t, 0, 3) == 3;
      assert t[0..3] == t;
    }
    assert Boundary(t, 3) == 3 && Boundary(t, 2) == 3 && Boundary(t, 1) == 3;
  }

  /** A hard split can leave a chunk of blanks only: such chunks are kept. */
  lemma ChunkCanBeBlank()
    ensures exists c :: c in Chunks("a b", 1) && Ink(c) == ""
  {
    OneSentence();
    assert BlankSlice("a b", 1, 1) by {
      assert "a b"[1 * 1..(1 + 1) * 1] == " ";
      InkOfBlank(" ");
    }
    hide Chunks, Ink, Sentences, Strip, BlankSlice;
    BlankChunkIff("a b", 1);
    assert BlankSlice(Sentences(Strip("a b"))[0], 1, 1);
  }
}
