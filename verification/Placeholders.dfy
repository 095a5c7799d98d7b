/** Bindings such as `$data.contacts.0.name` in a surface template: `_resolve_placeholder` of app_registry.py. */
module Placeholders {
  import opened Prelude
  import opened Json
  import opened TextTools

  /** `s.split(".")`. */
  function SplitDots(s: string): (parts: seq<string>)
    ensures parts != []
  {
    if s == "" then [""]
    else
      var rest := SplitDots(s[1..]);
      if s[0] == '.' then [""] + rest else [[s[0]] + rest[0]] + rest[1..]
  }

  /** The binding inside the text, without the dollar sign and the braces. */
  function Inner(text: string): Option<string> {
    var t := Strip(text);
    if "${" <= t && t[|t| - 1] == '}' then Some(t[2..|t| - 1])
    else if "$" <= t then Some(t[1..])
    else None
  }

  /** What `data` holds at these segments; `index` is what `int` makes of one. A missing place shows nothing. */
  function Follow(current: Json, parts: seq<string>, index: string -> Option<int>): Json
    decreases |parts|
  {
    if parts == [] then current
    else if Get(current, parts[0]).Some? then Follow(Get(current, parts[0]).value, parts[1..], index)
    else if current.JArr? && index(parts[0]).Some? && 0 <= index(parts[0]).value < |current.items| then
      Follow(current.items[index(parts[0]).value], parts[1..], index)
    else JStr("")
  }

  /** The value a string of a template stands for. */
  function Resolve(text: string, data: Json, index: string -> Option<int>): Json {
    match Inner(text)
    case None => JStr(text)
    case Some(inner) => if "data" <= inner then Follow(data, SplitDots(inner)[1..], index) else JStr(text)
  }

  // ---- What a binding shows ----

  /** The segments, each after a dot. */
  function Dotted(parts: seq<string>): string {
    if parts == [] then "" else "." + parts[0] + Dotted(parts[1..])
  }

  predicate AreSegments(parts: seq<string>) {
    forall i :: 0 <= i < |parts| ==> '.' !in parts[i]
  }

  lemma {:induction false} SplitSegment(a: string, b: string)
    requires '.' !in a && (b == "" || b[0] == '.')
    ensures SplitDots(a + b) == [a] + if b == "" then [] else SplitDots(b[1..])
    decreases |a|
  {
    if a == "" {
      assert a + b == b;
    } else {
      assert (a + b)[1..] == a[1..] + b;
      SplitSegment(a[1..], b);
      assert [a[0]] + a[1..] == a;
    }
  }

  lemma {:induction false} SplitDotted(a: string, parts: seq<string>)
    requires '.' !in a && AreSegments(parts)
    ensures SplitDots(a + Dotted(parts)) == [a] + parts
    decreases |parts|
  {
    hide SplitDots;
    SplitSegment(a, Dotted(parts));
    if parts != [] {
      assert Dotted(parts)[1..] == parts[0] + Dotted(parts[1..]);
      SplitDotted(parts[0], parts[1..]);
    }
  }

  /** The segments name this path: a key of a dictionary, or the number of a list item. */
  predicate Names(parts: seq<string>, path: seq<At>, index: string -> Option<int>) {
    |parts| == |path| &&
    forall k :: 0 <= k < |path| ==>
      match path[k] case Entry(key) => parts[k] == key case Item(i) => index(parts[k]) == Some(i)
  }

  lemma {:induction false} NamesTail(parts: seq<string>, path: seq<At>, index: string -> Option<int>)
    requires parts != [] && Names(parts, path, index)
    ensures Names(parts[1..], path[1..], index)
  {
  }

  lemma {:induction false} NamesMore(at: At, parts: seq<string>, path: seq<At>, index: string -> Option<int>)
    requires parts != [] && Names(parts[1..], path, index)
    requires match at case Entry(key) => parts[0] == key case Item(i) => index(parts[0]) == Some(i)
    ensures Names(parts, [at] + path, index)
  {
    forall k | 0 < k < |parts| ensures ([at] + path)[k] == path[k - 1] && parts[1..][k - 1] == parts[k] {
    }
  }

  lemma {:induction false} FollowReaches(data: Json, parts: seq<string>, path: seq<At>, index: string -> Option<int>)
    requires Names(parts, path, index) && SubTree(data, path).Some?
    ensures Follow(data, parts, index) == SubTree(data, path).value
    decreases |parts|
  {
    if parts != [] {
      NamesTail(parts, path, index);
      match path[0]
      case Entry(key) => FollowReaches(Get(data, key).value, parts[1..], path[1..], index);
      case Item(i) => FollowReaches(data.items[i], parts[1..], path[1..], index);
    }
  }

  lemma {:induction false} NothingIsNamed(data: Json, index: string -> Option<int>)
    ensures Names([], [], index) && SubTree(data, []) == Some(data)
  {
  }

  lemma {:induction false} FollowMisses(data: Json, parts: seq<string>, index: string -> Option<int>)
    requires forall path: seq<At> :: Names(parts, path, index) ==> SubTree(data, path).None?
    ensures Follow(data, parts, index) == JStr("")
    decreases |parts|
  {
    NothingIsNamed(data, index);
    if parts != [] {
      var key := parts[0];
      if Get(data, key).Some? {
        MissesBelow(data, Entry(key), Get(data, key).value, parts, index);
        FollowMisses(Get(data, key).value, parts[1..], index);
      } else if data.JArr? && index(key).Some? && 0 <= index(key).value < |data.items| {
        MissesBelow(data, Item(index(key).value), data.items[index(key).value], parts, index);
        FollowMisses(data.items[index(key).value], parts[1..], index);
      }
    }
  }

  lemma {:induction false} MissesBelow(data: Json, at: At, child: Json, parts: seq<string>,
                                       index: string -> Option<int>)
    requires forall path: seq<At> :: Names(parts, path, index) ==> SubTree(data, path).None?
    requires SubTree(data, [at]) == Some(child) && parts != []
    requires match at case Entry(key) => parts[0] == key case Item(i) => index(parts[0]) == Some(i)
    ensures forall path: seq<At> :: Names(parts[1..], path, index) ==> SubTree(child, path).None?
  {
    forall path: seq<At> | Names(parts[1..], path, index) ensures SubTree(child, path).None? {
      NamesMore(at, parts, path, index);
      assert ([at] + path)[1..] == path && [at][1..] == [];
      assert SubTree(data, [at] + path) == SubTree(child, path);
    }
  }

  /**
   * The text is a binding of these segments, with or without braces, up to blanks around it. Its first segment need
   * only start with `data`.
   */
  predicate IsBinding(text: string, first: string, parts: seq<string>) {
    && "data" <= first && AreSegments([first] + parts)
    && (Strip(text) == "$" + first + Dotted(parts) || Strip(text) == "${" + first + Dotted(parts) + "}")
  }

  lemma {:induction false} InnerOfBinding(text: string, first: string, parts: seq<string>)
    requires IsBinding(text, first, parts)
    ensures Inner(text) == Some(first + Dotted(parts))
  {
    hide Strip, Dotted;
    var t, inner := Strip(text), first + Dotted(parts);
    assert inner[0] == 'd';
    if t == "$" + first + Dotted(parts) {
      assert t[1] == 'd' && t[1..] == inner;
    } else {
      assert t[0] == '$' && t[1] == '{' && t[|t| - 1] == '}';
      assert t[2..|t| - 1] == inner;
    }
  }

  /** A binding shows what the data holds at the path its segments name, and nothing if it holds nothing there. */
  lemma {:induction false} BindingShowsData(text: string, first: string, parts: seq<string>, data: Json,
                                            index: string -> Option<int>)
    requires IsBinding(text, first, parts)
    ensures forall path: seq<At> :: Names(parts, path, index) && SubTree(data, path).Some? ==>
              Resolve(text, data, index) == SubTree(data, path).value
    ensures (forall path: seq<At> :: Names(parts, path, index) ==> SubTree(data, path).None?) ==>
              Resolve(text, data, index) == JStr("")
  {
    InnerOfBinding(text, first, parts);
    assert ([first] + parts)[0] == first && forall i :: 0 <= i < |parts| ==> ([first] + parts)[i + 1] == parts[i];
    SplitDotted(first, parts);
    hide IsBinding, Inner, SplitDots, Dotted, AreSegments;
    assert Resolve(text, data, index) == Follow(data, parts, index);
    hide Resolve;
    forall path: seq<At> | Names(parts, path, index) && SubTree(data, path).Some?
      ensures Follow(data, parts, index) == SubTree(data, path).value
    {
      FollowReaches(data, parts, path, index);
    }
    if forall path: seq<At> :: Names(parts, path, index) ==> SubTree(data, path).None? {
      FollowMisses(data, parts, index);
    }
  }

  predicate StartsBinding(t: string) {
    "$data" <= t || ("${data" <= t && t[|t| - 1] == '}')
  }

  lemma {:induction false} PrefixAfter(a: string, b: string, t: string)
    requires a <= t
    ensures b <= t[|a|..] <==> a + b <= t
  {
    if b <= t[|a|..] {
      assert t == a + t[|a|..];
    }
    if a + b <= t {
      assert forall k :: 0 <= k < |b| ==> t[|a| + k] == (a + b)[|a| + k] == b[k];
    }
  }

  lemma {:induction false} InnerStart(text: string)
    ensures Inner(text).Some? && "data" <= Inner(text).value <==> StartsBinding(Strip(text))
  {
    hide Strip;
    var t, dollar, brace, data := Strip(text), "$", "${", "data";
    assert dollar + data == "$data" && brace + data == "${data";
    if dollar <= t {
      PrefixAfter(dollar, data, t);
    }
    if brace <= t {
      PrefixAfter(brace, data, t);
      assert t[1] == '{';
      if t[|t| - 1] == '}' {
        BeforeLast(data, t[2..]);
        assert t[2..][..|t| - 3] == t[2..|t| - 1];
      }
    }
  }

  lemma {:induction false} BeforeLast(a: string, t: string)
    requires t != "" && a != "" && t[|t| - 1] !in a
    ensures a <= t[..|t| - 1] <==> a <= t
  {
    if |a| == |t| {
      assert t[|t| - 1] in t;
    }
  }

  /** Text that does not start like a binding is shown as it is. */
  lemma {:induction false} OtherTextIsKept(text: string, data: Json, index: string -> Option<int>)
    requires !StartsBinding(Strip(text))
    ensures Resolve(text, data, index) == JStr(text)
  {
    hide Inner, StartsBinding;
    InnerStart(text);
  }
}
