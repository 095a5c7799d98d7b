/** Exact-string edits on a small file system, for feral-core/agents/coding_run.py. */
module FileEdits {
  import opened Prelude
  import opened TextTools

  /** A resolved absolute path. */
  type Path = seq<string>

  /** A text file, a file whose bytes do not decode, or a directory. */
  datatype Node = File(text: string) | Undecodable | Directory

  type FileSystem = map<Path, Node>

  /** `_ensure_inside_workspace`: the root itself or something below it. */
  predicate Inside(root: Path, p: Path) { root <= p }

  /** A path is inside exactly when it continues the root. */
  lemma {:induction false} InsideMeaning(root: Path, p: Path)
    ensures Inside(root, p) <==> exists rest: Path :: p == root + rest
  {
    if Inside(root, p) {
      assert p == root + p[|root|..];
    }
  }

  /** The first place from `i` on where `find` occurs. */
  function FirstFrom(s: string, find: string, i: nat): (r: Option<nat>)
    requires i <= |s|
    ensures r.Some? ==> i <= r.value && OccursAt(s, find, r.value)
    ensures forall k: nat :: i <= k && (r.Some? ==> k < r.value) ==> !OccursAt(s, find, k)
    decreases |s| - i
  {
    if OccursAt(s, find, i) then Some(i) else if i == |s| then None else FirstFrom(s, find, i + 1)
  }

  /** `s.replace(find, replace, 1)`; a string without `find` stays as it is. */
  function ReplaceFirst(s: string, find: string, replace: string): string {
    match FirstFrom(s, find, 0)
    case Some(i) => s[..i] + replace + s[i + |find|..]
    case None => s
  }

  /** The text falls into what is before, the string, and what is after it. */
  ghost predicate SplitsAt(s: string, find: string, before: string, after: string) {
    s == before + find + after
  }

  lemma {:induction false} OccurrenceSplits(s: string, find: string, i: nat)
    ensures OccursAt(s, find, i) <==> i + |find| <= |s| && SplitsAt(s, find, s[..i], s[i + |find|..])
  {
    if i + |find| <= |s| {
      var whole := s[..i] + find + s[i + |find|..];
      assert |whole| == |s| && forall k :: 0 <= k < |find| ==> whole[i + k] == find[k];
      if OccursAt(s, find, i) {
        forall k | 0 <= k < |s| ensures whole[k] == s[k] {
          assert i <= k < i + |find| ==> s[i + (k - i)] == find[k - i];
        }
      }
    }
  }

  lemma {:induction false} SplitIsOccurrence(s: string, find: string, before: string, after: string)
    requires SplitsAt(s, find, before, after)
    ensures OccursAt(s, find, |before|)
    ensures |before| + |find| <= |s| && before == s[..|before|] && after == s[|before| + |find|..]
  {
    assert forall k :: 0 <= k < |find| ==> (before + find)[|before| + k] == find[k];
  }

  /** Before and after the first occurrence. */
  ghost predicate SplitsFirst(s: string, find: string, before: string, after: string) {
    && SplitsAt(s, find, before, after)
    && forall b, a :: SplitsAt(s, find, b, a) ==> |before| <= |b|
  }

  lemma {:induction false} ContainsMeaning(s: string, find: string)
    ensures Contains(s, find) <==> exists before, after :: SplitsAt(s, find, before, after)
  {
    if i: nat :| i <= |s| && OccursAt(s, find, i) {
      OccurrenceSplits(s, find, i);
    }
    if before, after :| SplitsAt(s, find, before, after) {
      SplitIsOccurrence(s, find, before, after);
    }
  }

  lemma {:induction false} FirstSplits(s: string, find: string, i: nat)
    requires OccursAt(s, find, i) && forall k: nat :: k < i ==> !OccursAt(s, find, k)
    ensures i + |find| <= |s| && SplitsFirst(s, find, s[..i], s[i + |find|..])
  {
    OccurrenceSplits(s, find, i);
    hide OccursAt, SplitsAt;
    forall before, after | SplitsAt(s, find, before, after) ensures i <= |before| {
      SplitIsOccurrence(s, find, before, after);
    }
  }

  /** Exactly the first occurrence is replaced; a text without the string stays as it is. */
  lemma {:induction false} ReplaceFirstMeaning(s: string, find: string, replace: string)
    ensures forall before, after :: SplitsFirst(s, find, before, after) ==>
              ReplaceFirst(s, find, replace) == before + replace + after
    ensures if Contains(s, find) then exists before, after :: SplitsFirst(s, find, before, after)
            else ReplaceFirst(s, find, replace) == s
  {
    var first := FirstFrom(s, find, 0);
    if first.Some? {
      FirstSplits(s, find, first.value);
    } else {
      ContainsMeaning(s, find);
    }
    hide OccursAt, SplitsAt, FirstFrom;
    forall before, after | SplitsFirst(s, find, before, after)
      ensures first.Some? && before == s[..first.value] && after == s[first.value + |find|..]
    {
      SplitIsOccurrence(s, find, before, after);
    }
  }

  /** Text as `read_text` returns it: every line end is a line feed. */
  function Universal(s: string): string {
    if s == "" then ""
    else if s[0] == '\r' then "\n" + Universal(if |s| > 1 && s[1] == '\n' then s[2..] else s[1..])
    else [s[0]] + Universal(s[1..])
  }

  /** No carriage return is read, and text without any is read as it is. */
  lemma {:induction false} UniversalMeaning(s: string)
    ensures '\r' !in Universal(s)
    ensures '\r' !in s <==> Universal(s) == s
    decreases |s|
  {
    if s != "" {
      UniversalMeaning(s[1..]);
      if |s| > 1 {
        UniversalMeaning(s[2..]);
      }
      assert s == [s[0]] + s[1..];
    }
  }

  /** Up to its first carriage return a text is read as it is; that return, alone or before a line feed, ends a line. */
  lemma {:induction false} UniversalAtReturn(before: string, after: string)
    requires '\r' !in before
    ensures Universal(before + "\r\n" + after) == before + "\n" + Universal(after)
    ensures after == "" || after[0] != '\n' ==> Universal(before + "\r" + after) == before + "\n" + Universal(after)
    decreases |before|
  {
    var crlf, cr, lf := "\r\n", "\r", "\n";
    if before == "" {
      assert (before + crlf + after)[2..] == after && (before + cr + after)[1..] == after;
      assert before + lf + Universal(after) == lf + Universal(after);
    } else {
      var rest := before[1..];
      UniversalAtReturn(rest, after);
      assert (before + crlf + after)[1..] == rest + crlf + after && (before + cr + after)[1..] == rest + cr + after;
      assert [before[0]] + (rest + lf + Universal(after)) == before + lf + Universal(after);
    }
  }

  /** An edit as applied: the target and the two strings. */
  datatype Edit = Edit(path: Path, find: string, replace: string)

  /** An edit can be applied to an existing text file that, as it is read, contains the string. */
  predicate Applicable(fs: FileSystem, e: Edit) {
    e.path in fs && fs[e.path].File? && Contains(Universal(fs[e.path].text), e.find)
  }

  function ApplyEdit(fs: FileSystem, e: Edit): FileSystem {
    if Applicable(fs, e) then fs[e.path := File(ReplaceFirst(Universal(fs[e.path].text), e.find, e.replace))]
    else fs
  }

  /** A string with a carriage return is never found, whatever the file holds. */
  lemma {:induction false} CarriageReturnIsNeverFound(fs: FileSystem, e: Edit)
    requires '\r' in e.find
    ensures !Applicable(fs, e)
  {
    if e.path in fs && fs[e.path].File? {
      var text := Universal(fs[e.path].text);
      UniversalMeaning(fs[e.path].text);
      var k :| 0 <= k < |e.find| && e.find[k] == '\r';
      forall i: nat ensures !OccursAt(text, e.find, i) {
        if i + |e.find| <= |text| {
          assert text[i + k] in text;
        }
      }
    }
  }

  /**
   * An edit is applicable exactly when its string is somewhere in the text as it is read. Applied, it changes the first
   * occurrence and, in a file with carriage returns, the line ends; nothing else.
   */
  lemma {:induction false} EditMeaning(fs: FileSystem, e: Edit)
    requires e.path in fs && fs[e.path].File?
    ensures var was := Universal(fs[e.path].text);
            && (Applicable(fs, e) <==> exists before, after :: SplitsFirst(was, e.find, before, after))
            && (forall before, after :: SplitsFirst(was, e.find, before, after) ==>
                  ApplyEdit(fs, e) == fs[e.path := File(before + e.replace + after)])
            && (!Applicable(fs, e) ==> ApplyEdit(fs, e) == fs)
    ensures '\r' !in fs[e.path].text ==> Universal(fs[e.path].text) == fs[e.path].text
  {
    var was := Universal(fs[e.path].text);
    UniversalMeaning(fs[e.path].text);
    hide Universal, ReplaceFirst, Contains, SplitsAt;
    ReplaceFirstMeaning(was, e.find, e.replace);
    ContainsMeaning(was, e.find);
  }

  /** The files after some edits, in order. */
  function Replay(fs: FileSystem, es: seq<Edit>): FileSystem {
    if es == [] then fs else ApplyEdit(Replay(fs, es[..|es| - 1]), es[|es| - 1])
  }

  function PathsOf(es: seq<Edit>): seq<Path> {
    if es == [] then [] else PathsOf(es[..|es| - 1]) + [es[|es| - 1].path]
  }

  lemma {:induction false} ReplayStep(fs: FileSystem, es: seq<Edit>, e: Edit)
    ensures Replay(fs, es + [e]) == ApplyEdit(Replay(fs, es), e)
    ensures PathsOf(es + [e]) == PathsOf(es) + [e.path]
  {
    assert (es + [e])[..|es|] == es;
  }

  /** Edits create and delete nothing, keep what is no text file, and change no file they do not name. */
  lemma {:induction false} ReplayFrame(fs: FileSystem, es: seq<Edit>, p: Path)
    ensures p in Replay(fs, es) <==> p in fs
    ensures p in fs ==> (Replay(fs, es)[p].File? <==> fs[p].File?)
    ensures p in fs && !fs[p].File? ==> Replay(fs, es)[p] == fs[p]
    ensures p in fs && Replay(fs, es)[p] != fs[p] ==> p in PathsOf(es)
    decreases |es|
  {
    if es != [] {
      ReplayFrame(fs, es[..|es| - 1], p);
    }
  }
}
