/** The render cache of feral-core/agents/app_registry.py, against the simple map of last trees written. */
module HybridGenerator {
  import opened Prelude
  import opened Json
  import opened Placeholders

  datatype Kind = Authored | Generated | Hybrid | UnknownKind

  /** A cache file: app directory, surface directory, fingerprint token and schema version. */
  datatype CacheKey = CacheKey(app: string, surface: string, token: string, version: int)

  /**
   * One render request. `bundled` is the parsed default file of the bundle, if any; `reply` is what the model would
   * answer if asked (`None` when the call raises); `fallback` is the deterministic tree.
   */
  datatype Request = Request(kind: Kind, template: Json, data: Json, regenerate: bool,
                             bundled: Option<Json>, reply: Option<Json>, fallback: Json)

  // ---- Trees ----

  /** Replace every string by what it stands for under the data; `index` is what `int` makes of a segment. */
  function Hydrate(tree: Json, data: Json, index: string -> Option<int>): Json
    decreases tree
  {
    match tree
    case JStr(s) => Resolve(s, data, index)
    case JArr(items) => JArr(seq(|items|, i requires 0 <= i < |items| => Hydrate(items[i], data, index)))
    case JObj(fields) =>
      JObj(seq(|fields|, i requires 0 <= i < |fields| => Field(fields[i].key, Hydrate(fields[i].value, data, index))))
    case _ => tree
  }

  function HydrateFields(fields: seq<Field>, data: Json, index: string -> Option<int>): seq<Field> {
    seq(|fields|, i requires 0 <= i < |fields| => Field(fields[i].key, Hydrate(fields[i].value, data, index)))
  }

  lemma {:induction false} FindHydrated(fields: seq<Field>, key: string, data: Json, index: string -> Option<int>)
    requires Find(fields, key).Some?
    ensures Find(HydrateFields(fields, data, index), key) == Some(Hydrate(Find(fields, key).value, data, index))
    decreases |fields|
  {
    if fields[0].key != key {
      FindHydrated(fields[1..], key, data, index);
      assert HydrateFields(fields, data, index)[1..] == HydrateFields(fields[1..], data, index);
    }
  }

  lemma {:induction false} HydrateCommutes(tree: Json, path: seq<At>, data: Json, index: string -> Option<int>)
    requires SubTree(tree, path).Some?
    ensures SubTree(Hydrate(tree, data, index), path) == Some(Hydrate(SubTree(tree, path).value, data, index))
    decreases |path|
  {
    if path != [] {
      match path[0]
      case Entry(key) =>
        FindHydrated(tree.fields, key, data, index);
        assert Hydrate(tree, data, index) == JObj(HydrateFields(tree.fields, data, index));
        HydrateCommutes(Get(tree, key).value, path[1..], data, index);
      case Item(i) =>
        HydrateCommutes(tree.items[i], path[1..], data, index);
    }
  }

  /**
   * Wherever the tree has a string, the hydrated tree has what that string resolves to under the data; every other
   * leaf is where it was, and lists keep their length and dictionaries their keys, in order.
   */
  lemma {:induction false} HydrateAt(tree: Json, path: seq<At>, data: Json, index: string -> Option<int>)
    requires SubTree(tree, path).Some?
    ensures var was, now := SubTree(tree, path).value, SubTree(Hydrate(tree, data, index), path);
            now.Some? &&
            match was
            case JStr(s) => now.value == Resolve(s, data, index)
            case JArr(items) => now.value.JArr? && |now.value.items| == |items|
            case JObj(fields) =>
              now.value.JObj? && |now.value.fields| == |fields| &&
              forall i :: 0 <= i < |fields| ==> now.value.fields[i].key == fields[i].key
            case _ => now.value == was
  {
    HydrateCommutes(tree, path, data, index);
  }

  predicate Truthy(v: Json) {
    match v
    case JNull => false
    case JBool(b) => b
    case JInt(n) => n != 0
    case JFloat(x) => x != 0.0
    case JStr(s) => s != ""
    case JArr(items) => items != []
    case JObj(fields) => fields != []
  }

  /** A bundled default counts only when it is a dictionary. */
  function PublisherDefault(req: Request): Option<Json> {
    if req.bundled.Some? && req.bundled.value.JObj? then req.bundled else None
  }

  predicate UsableReply(reply: Option<Json>) {
    reply.Some? && reply.value.JObj? && Get(reply.value, "type").Some? && Truthy(Get(reply.value, "type").value)
  }

  /** `_llm_generate`: a usable reply of the model, else the deterministic tree. */
  function GeneratedTree(engine: bool, req: Request): Json {
    if engine && UsableReply(req.reply) then req.reply.value else req.fallback
  }

  // ---- The simple model: the last tree written under each key ----

  datatype World = World(trees: map<CacheKey, Json>, engine: bool)

  /** What a render shows, whether it writes that tree to the cache, and whether it asks the model. */
  datatype Choice = Show(tree: Json) | Write(tree: Json, asked: bool) | Refuse

  function Lookup(w: World, key: CacheKey): Option<Json> {
    if key in w.trees then Some(w.trees[key]) else None
  }

  function Choose(cached: Option<Json>, engine: bool, req: Request): Choice {
    match req.kind
    case Authored => Show(req.template)
    case Generated =>
      if !req.regenerate && cached.Some? then Show(cached.value)
      else if PublisherDefault(req).Some? && !req.regenerate then Write(PublisherDefault(req).value, false)
      else Write(GeneratedTree(engine, req), engine)
    case Hybrid =>
      if req.regenerate then
        if PublisherDefault(req).Some? && !engine then Write(PublisherDefault(req).value, false)
        else Write(GeneratedTree(engine, req), engine)
      else if cached.Some? then Show(cached.value)
      else Show(req.template)
    case UnknownKind => Refuse
  }

  /** What a request makes the source write, when it writes. */
  lemma {:induction false} WrittenTree(engine: bool, req: Request, cached: Option<Json>)
    requires Choose(cached, engine, req).Write?
    ensures req.kind == Generated || req.kind == Hybrid
    ensures var choice := Choose(cached, engine, req);
            var hasDefault := req.bundled.Some? && req.bundled.value.JObj?;
            if hasDefault && (if req.kind == Generated then !req.regenerate else !engine)
            then choice == Write(req.bundled.value, false)
            else if engine && IsUsable(req.reply) then choice == Write(req.reply.value, true)
            else choice == Write(req.fallback, engine)
  {
  }

  /** The reply is a dictionary whose type is there and not empty, zero, false or null. */
  predicate IsUsable(reply: Option<Json>) {
    && reply.Some? && reply.value.JObj? && Get(reply.value, "type").Some?
    && Get(reply.value, "type").value !in
       {JNull, JBool(false), JInt(0), JFloat(0.0), JStr(""), JArr([]), JObj([])}
  }

  datatype Op = Render(key: CacheKey, req: Request) | Purge(app: string) | SetEngine(present: bool)

  function ChoiceOf(w: World, op: Op): Choice
    requires op.Render?
  {
    Choose(Lookup(w, op.key), w.engine, op.req)
  }

  function Step(w: World, op: Op): World {
    match op
    case Render(key, req) =>
      (match ChoiceOf(w, op)
       case Write(tree, _) => w.(trees := w.trees[key := tree])
       case _ => w)
    case Purge(app) => w.(trees := map k | k in w.trees && k.app != app :: w.trees[k])
    case SetEngine(present) => w.(engine := present)
  }

  function Run(w: World, ops: seq<Op>): World {
    if ops == [] then w else Step(Run(w, ops[..|ops| - 1]), ops[|ops| - 1])
  }

  /** The last tree a run wrote under a key since the last purge of its app; at the start, what was there. */
  function LastTree(w: World, ops: seq<Op>, key: CacheKey): Option<Json> {
    if ops == [] then Lookup(w, key)
    else
      var front, op := ops[..|ops| - 1], ops[|ops| - 1];
      if op.Purge? && op.app == key.app then None
      else if op.Render? && op.key == key && ChoiceOf(Run(w, front), op).Write? then
        Some(ChoiceOf(Run(w, front), op).tree)
      else LastTree(w, front, key)
  }

  lemma {:induction false} CacheHoldsLastTree(w: World, ops: seq<Op>, key: CacheKey)
    ensures Lookup(Run(w, ops), key) == LastTree(w, ops, key)
    decreases |ops|
  {
    if ops != [] {
      CacheHoldsLastTree(w, ops[..|ops| - 1], key);
    }
  }

  /**
   * After any run, a non-regenerating render of a generated or hybrid surface shows exactly the last tree written
   * under its key since the last purge, if there is one; it writes nothing and asks no model.
   */
  lemma {:induction false} RenderShowsLastTree(w: World, ops: seq<Op>, op: Op)
    requires op.Render? && !op.req.regenerate && (op.req.kind == Generated || op.req.kind == Hybrid)
    requires LastTree(w, ops, op.key).Some?
    ensures ChoiceOf(Run(w, ops), op) == Show(LastTree(w, ops, op.key).value)
    ensures Step(Run(w, ops), op) == Run(w, ops)
  {
    CacheHoldsLastTree(w, ops, op.key);
  }

  /** How often the run asks the model for this key. */
  function Asks(w: World, ops: seq<Op>, key: CacheKey): nat {
    if ops == [] then 0
    else
      var front, op := ops[..|ops| - 1], ops[|ops| - 1];
      Asks(w, front, key) +
      if op.Render? && op.key == key && ChoiceOf(Run(w, front), op).Write? && ChoiceOf(Run(w, front), op).asked
      then 1 else 0
  }

  /** No regeneration of this key and no purge of its app. */
  predicate Undisturbed(ops: seq<Op>, key: CacheKey) {
    forall i :: 0 <= i < |ops| ==>
      && (ops[i].Render? && ops[i].key == key ==> !ops[i].req.regenerate)
      && (ops[i].Purge? ==> ops[i].app != key.app)
  }

  /** Between regenerations and purges the model is asked at most once per key, and never once a tree is cached. */
  lemma {:induction false} AskedAtMostOnce(w: World, ops: seq<Op>, key: CacheKey)
    requires Undisturbed(ops, key)
    ensures Asks(w, ops, key) <= 1
    ensures key in w.trees ==> Asks(w, ops, key) == 0
    ensures key in w.trees || Asks(w, ops, key) == 1 ==> key in Run(w, ops).trees
    decreases |ops|
  {
    if ops != [] {
      AskedAtMostOnce(w, ops[..|ops| - 1], key);
    }
  }

  /** The i-th operation of the run asks the model for this key. */
  predicate AsksAt(w: World, ops: seq<Op>, key: CacheKey, i: nat)
    requires i < |ops|
  {
    ops[i].Render? && ops[i].key == key &&
    match ChoiceOf(Run(w, ops[..i]), ops[i]) case Write(_, asked) => asked case _ => false
  }

  lemma {:induction false} CachedOnceAsked(w: World, ops: seq<Op>, key: CacheKey, i: nat, j: nat)
    requires Undisturbed(ops, key) && i < j <= |ops| && AsksAt(w, ops, key, i)
    ensures key in Run(w, ops[..j]).trees
    decreases j
  {
    assert ops[..j][..j - 1] == ops[..j - 1] && ops[..j][j - 1] == ops[j - 1];
    if i < j - 1 {
      CachedOnceAsked(w, ops, key, i, j - 1);
    }
  }

  /** Of two operations of an undisturbed run at most one asks the model for a key. */
  lemma {:induction false} NotAskedTwice(w: World, ops: seq<Op>, key: CacheKey, i: nat, j: nat)
    requires Undisturbed(ops, key) && i < j < |ops| && AsksAt(w, ops, key, i)
    ensures !AsksAt(w, ops, key, j)
  {
    CachedOnceAsked(w, ops, key, i, j);
    assert ops[j].Render? && ops[j].key == key ==> !ops[j].req.regenerate;
    hide Run;
  }

  // ---- The cache directory ----

  /** The file written for a tree. */
  function Payload(now: real, tree: Json): Json {
    JObj([Field("generated_at", JFloat(now)), Field("tree", tree)])
  }

  /** `_safe_read_json`: the wrapped tree, else the dictionary itself; `None` for anything unreadable. */
  function SafeRead(file: Option<Json>): Option<Json> {
    if file.None? || !file.value.JObj? then None
    else if Get(file.value, "tree").Some? && Get(file.value, "tree").value.JObj? then Get(file.value, "tree")
    else file
  }

  /** Reading a written file gives the tree back, even one with a "tree" entry of its own. */
  lemma {:induction false} ReadBack(now: real, tree: Json)
    requires tree.JObj?
    ensures SafeRead(Some(Payload(now, tree))) == Some(tree)
  {
    var fields := Payload(now, tree).fields;
    assert fields[0].key[0] != "tree"[0];
    assert fields[1..] == [Field("tree", tree)] && Find([Field("tree", tree)], "tree") == Some(tree);
  }

  /** The trees a directory of files holds; a file that does not parse (`None`) holds none. */
  function TreesIn(files: map<CacheKey, Option<Json>>): map<CacheKey, Json> {
    map k | k in files && SafeRead(files[k]).Some? :: SafeRead(files[k]).value
  }

  /**
   * What a cache file holds: nothing unless it parses to a dictionary; the dictionary under "tree" if there is one,
   * and else the whole dictionary, as files without the wrapping have it.
   */
  lemma {:induction false} TreesMeaning(files: map<CacheKey, Option<Json>>, key: CacheKey, tree: Json)
    ensures (key in TreesIn(files) && TreesIn(files)[key] == tree) <==>
            && key in files && files[key].Some? && files[key].value.JObj? && tree.JObj?
            && (if Get(files[key].value, "tree").Some? && Get(files[key].value, "tree").value.JObj?
                then Get(files[key].value, "tree") == Some(tree)
                else files[key] == Some(tree))
  {
    hide Get;
  }

  /** A written file holds the time and the tree under their names. */
  lemma {:induction false} PayloadMeaning(now: real, tree: Json)
    ensures Payload(now, tree).JObj? && KeysOf(Payload(now, tree).fields) == {"generated_at", "tree"}
    ensures Get(Payload(now, tree), "generated_at") == Some(JFloat(now))
    ensures Get(Payload(now, tree), "tree") == Some(tree)
  {
    var fields := Payload(now, tree).fields;
    assert fields[0].key[0] != "tree"[0];
    assert fields[1..] == [Field("tree", tree)] && Find([Field("tree", tree)], "tree") == Some(tree);
    assert fields[0].key in KeysOf(fields) && fields[1].key in KeysOf(fields);
  }

  lemma {:induction false} TreesAfterWrite(files: map<CacheKey, Option<Json>>, key: CacheKey, now: real, tree: Json)
    requires tree.JObj?
    ensures TreesIn(files[key := Some(Payload(now, tree))]) == TreesIn(files)[key := tree]
  {
    ReadBack(now, tree);
  }

  class HybridGenerator {
    /** The cache files: parsed, or `None` for one that does not parse. */
    var files: map<CacheKey, Option<Json>>
    var engine: bool
    const token: string -> string
    const index: string -> Option<int>

    constructor (files: map<CacheKey, Option<Json>>, token: string -> string, index: string -> Option<int>)
      ensures this.files == files && !engine && this.token == token && this.index == index
    {
      this.files, this.engine := files, false;
      this.token, this.index := token, index;
    }

    function View(): World
      reads this
    {
      World(TreesIn(files), engine)
    }

    method SetGenuiEngine(present: bool)
      modifies this`engine
      ensures View() == Step(old(View()), SetEngine(present))
    {
      engine := present;
    }

    method WriteCache(key: CacheKey, tree: Json, now: real)
      requires tree.JObj?
      modifies this`files
      ensures TreesIn(files) == TreesIn(old(files))[key := tree]
    {
      TreesAfterWrite(files, key, now, tree);
      files := files[key := Some(Payload(now, tree))];
    }

    /** `render`; `None` for an unknown kind of surface. */
    method Render(app: string, surface: string, fingerprint: string, version: int, req: Request, now: real)
      returns (rendered: Option<Json>)
      requires req.fallback.JObj?
      modifies this`files
      ensures var op := Op.Render(CacheKey(app, surface, token(fingerprint), version), req);
              && View() == Step(old(View()), op)
              && rendered == match ChoiceOf(old(View()), op)
                             case Show(tree) => Some(Hydrate(tree, req.data, index))
                             case Write(tree, _) => Some(Hydrate(tree, req.data, index))
                             case Refuse => None
    {
      var key := CacheKey(app, surface, token(fingerprint), version);
      match req.kind {
        case Authored =>
          return Some(Hydrate(req.template, req.data, index));
        case Generated =>
          if !req.regenerate && key in files {
            var cached := SafeRead(files[key]);
            if cached.Some? {
              return Some(Hydrate(cached.value, req.data, index));
            }
          }
          var default := PublisherDefault(req);
          if default.Some? && !req.regenerate {
            WriteCache(key, default.value, now);
            return Some(Hydrate(default.value, req.data, index));
          }
          var generated := GeneratedTree(engine, req);
          WriteCache(key, generated, now);
          return Some(Hydrate(generated, req.data, index));
        case Hybrid =>
          if req.regenerate {
            var default := PublisherDefault(req);
            if default.Some? && !engine {
              WriteCache(key, default.value, now);
              return Some(Hydrate(default.value, req.data, index));
            }
            var generated := GeneratedTree(engine, req);
            WriteCache(key, generated, now);
            return Some(Hydrate(generated, req.data, index));
          }
          if key in files {
            var cached := SafeRead(files[key]);
            if cached.Some? {
              return Some(Hydrate(cached.value, req.data, index));
            }
          }
          return Some(Hydrate(req.template, req.data, index));
        case UnknownKind =>
          return None;
      }
    }

    /** `purge_app_cache`: unlink the app's files one by one and count them. */
    method PurgeAppCache(app: string) returns (count: nat)
      modifies this`files
      ensures files == Outside(old(files), app)
      ensures count == |Inside(old(files), app)|
      ensures View() == Step(old(View()), Purge(app))
    {
      ghost var was := files;
      hide Outside, Inside;
      count := 0;
      var todo := set k | k in files && k.app == app;
      InsideIs(files, app, todo);
      while todo != {}
        invariant todo == Inside(files, app)
        invariant Outside(files, app) == Outside(was, app)
        invariant count + |todo| == |Inside(was, app)|
        decreases |todo|
      {
        var k :| k in todo;
        PurgeOne(files, app, k);
        files := files - {k};
        todo := todo - {k};
        count := count + 1;
      }
      AllPurged(files, app);
      TreesOutside(was, app);
    }
  }

  /** The files of one app, and the others. */
  function Inside(files: map<CacheKey, Option<Json>>, app: string): set<CacheKey> {
    set k | k in files && k.app == app
  }

  function Outside(files: map<CacheKey, Option<Json>>, app: string): map<CacheKey, Option<Json>> {
    map k | k in files && k.app != app :: files[k]
  }

  lemma {:induction false} InsideIs(files: map<CacheKey, Option<Json>>, app: string, todo: set<CacheKey>)
    requires todo == set k | k in files && k.app == app
    ensures todo == Inside(files, app)
  {
  }

  lemma {:induction false} PurgeOne(files: map<CacheKey, Option<Json>>, app: string, k: CacheKey)
    requires k in Inside(files, app)
    ensures Inside(files - {k}, app) == Inside(files, app) - {k} && Outside(files - {k}, app) == Outside(files, app)
  {
  }

  lemma {:induction false} AllPurged(files: map<CacheKey, Option<Json>>, app: string)
    requires Inside(files, app) == {}
    ensures files == Outside(files, app)
  {
    forall k | k in files ensures k in Outside(files, app) {
      assert k !in Inside(files, app);
    }
  }

  lemma {:induction false} TreesOutside(files: map<CacheKey, Option<Json>>, app: string)
    ensures TreesIn(Outside(files, app)) == map k | k in TreesIn(files) && k.app != app :: TreesIn(files)[k]
  {
  }
}
