/** What a rewritten record still shows: everything no rule covers, at its place, told by
    paths into values and groups; and of what a rule covers, the replacement or the mask. */
module RedactShows {
  import opened Common
  import opened Redact
  import opened RedactPaths

  // ---------------------------------------------------------------- paths through a value and its tree

  /** No later field takes the place of field i. */
  predicate LastOfName(fields: seq<Field>, i: nat)
    requires i < |fields|
  {
    forall j :: i < j < |fields| ==> fields[j].name != fields[i].name
  }

  /** The hop crosses no ruled key and no field another one replaces. */
  predicate ClearHop(c: Handler, d: Data, hop: Hop) {
    match hop
    case AtField(i) => d.Struct? && i < |d.fields| && !Ruled(c, d.fields[i].name) && LastOfName(d.fields, i)
    case AtKey(key) => !Ruled(c, key)
    case _ => true
  }

  ghost predicate ClearWalk(c: Handler, h: Heap, d: Data, path: seq<Hop>)
    decreases |path|
  {
    path == [] ||
    (ClearHop(c, d, path[0]) && Child(h, d, path[0]).Some? && ClearWalk(c, h, Child(h, d, path[0]).value, path[1..]))
  }

  /** The same hop in a tree made of the value; pointers and interfaces leave no trace there. */
  function Along(d: Data, t: Tree, hop: Hop): Option<Tree> {
    match hop
    case AtField(i) =>
      if d.Struct? && i < |d.fields| && t.Dict? && d.fields[i].name in t.entries
      then Some(t.entries[d.fields[i].name]) else None
    case AtKey(key) => if t.Dict? && key in t.entries then Some(t.entries[key]) else None
    case AtIndex(i) => if t.Items? && i < |t.items| then Some(t.items[i]) else None
    case _ => Some(t)
  }

  function Follow(h: Heap, d: Data, t: Tree, path: seq<Hop>): Option<Tree>
    decreases |path|
  {
    if path == [] then Some(t)
    else if Child(h, d, path[0]).None? || Along(d, t, path[0]).None? then None
    else Follow(h, Child(h, d, path[0]).value, Along(d, t, path[0]).value, path[1..])
  }

  // ---------------------------------------------------------------- what stands at the end of a path

  ghost predicate ShowsCovered(c: Handler, key: string, text: string, t: Tree)
    requires Ruled(c, key)
  {
    match RuleOf(c, key)
    case Hide => t == Said(c.replacement)
    case Cover(mask) => t.Said? && IsMasked(t.s, text, mask)
  }

  /** The tree shows the node as it is: its text, its keys or its length; and under ruled
      keys what the rules leave. */
  ghost predicate ShowsNode(c: Handler, h: Heap, d: Data, depth: nat, t: Tree) {
    if depth >= MAX_DEPTH then t == Said(UNLOGGABLE)
    else
      match d
      case Nil => t == Null
      case Leaf(text) => t == Plain(text)
      case Ptr(addr) => addr !in h ==> t == Null
      case Iface(_) => true
      case Struct(fields) =>
        && t.Dict?
        && (forall k :: k in t.entries <==> exists i :: 0 <= i < |fields| && fields[i].name == k)
        && (forall i :: 0 <= i < |fields| && LastOfName(fields, i) && Ruled(c, fields[i].name) ==>
              fields[i].name in t.entries
              && ShowsCovered(c, fields[i].name, c.render(h, fields[i].data), t.entries[fields[i].name]))
      case Table(entries) =>
        && t.Dict? && t.entries.Keys == entries.Keys
        && (forall k :: k in entries && Ruled(c, k) ==> ShowsCovered(c, k, c.render(h, entries[k]), t.entries[k]))
      case List(items) => t.Items? && |t.items| == |items|
  }

  lemma {:induction false} FieldIsKept(c: Handler, h: Heap, fields: seq<Field>, n: nat, depth: nat, i: nat)
    requires i < n <= |fields| && depth < MAX_DEPTH && forall j :: i < j < n ==> fields[j].name != fields[i].name
    ensures fields[i].name in Fields(c, h, fields, n, depth).0
    ensures Fields(c, h, fields, n, depth).0[fields[i].name] == Entry(c, h, fields[i].name, fields[i].data, depth).0
  {
    if i == n - 1 {
    } else {
      FieldIsKept(c, h, fields, n - 1, depth, i);
    }
  }

  lemma {:induction false} FieldNames(c: Handler, h: Heap, fields: seq<Field>, n: nat, depth: nat, k: string)
    requires n <= |fields| && depth < MAX_DEPTH
    ensures k in Fields(c, h, fields, n, depth).0 <==> exists i :: 0 <= i < n && fields[i].name == k
  {
    if n == 0 {
    } else {
      FieldNames(c, h, fields, n - 1, depth, k);
    }
  }

  lemma {:induction false} ElementsAre(c: Handler, h: Heap, items: seq<Data>, n: nat, depth: nat)
    requires n <= |items| && depth < MAX_DEPTH
    ensures |Elements(c, h, items, n, depth).0| == n
    ensures forall i :: 0 <= i < n ==> Elements(c, h, items, n, depth).0[i] == Sanitized(c, h, items[i], depth + 1).0
  {
    if n == 0 {
    } else {
      ElementsAre(c, h, items, n - 1, depth);
    }
  }

  lemma CoveredIsShown(c: Handler, h: Heap, key: string, d: Data, depth: nat)
    requires depth < MAX_DEPTH && Ruled(c, key)
    ensures ShowsCovered(c, key, c.render(h, d), Entry(c, h, key, d, depth).0)
  {
    if RuleOf(c, key).Cover? {
      MaskHidesTheMiddle(c.render(h, d), RuleOf(c, key).mask);
    }
  }

  lemma StructIsShown(c: Handler, h: Heap, fields: seq<Field>, depth: nat)
    requires depth < MAX_DEPTH
    ensures ShowsNode(c, h, Struct(fields), depth, Sanitized(c, h, Struct(fields), depth).0)
  {
    var t := Sanitized(c, h, Struct(fields), depth).0;
    forall k ensures k in t.entries <==> exists i :: 0 <= i < |fields| && fields[i].name == k {
      FieldNames(c, h, fields, |fields|, depth, k);
    }
    forall i | 0 <= i < |fields| && LastOfName(fields, i) && Ruled(c, fields[i].name)
      ensures fields[i].name in t.entries
      ensures ShowsCovered(c, fields[i].name, c.render(h, fields[i].data), t.entries[fields[i].name])
    {
      FieldIsKept(c, h, fields, |fields|, depth, i);
      CoveredIsShown(c, h, fields[i].name, fields[i].data, depth);
    }
  }

  lemma NodeIsShown(c: Handler, h: Heap, d: Data, depth: nat)
    ensures ShowsNode(c, h, d, depth, Sanitized(c, h, d, depth).0)
  {
    if depth < MAX_DEPTH {
      match d
      case Struct(fields) => StructIsShown(c, h, fields, depth);
      case Table(entries) =>
        forall k | k in entries && Ruled(c, k)
          ensures ShowsCovered(c, k, c.render(h, entries[k]), Sanitized(c, h, d, depth).0.entries[k]) {
          CoveredIsShown(c, h, k, entries[k], depth);
        }
        assert Sanitized(c, h, d, depth).0.entries.Keys == entries.Keys;
      case List(items) => ElementsAre(c, h, items, |items|, depth);
      case _ =>
    }
  }

  lemma HopIsKept(c: Handler, h: Heap, d: Data, depth: nat, hop: Hop)
    requires depth < MAX_DEPTH && ClearHop(c, d, hop) && Child(h, d, hop).Some?
    ensures Along(d, Sanitized(c, h, d, depth).0, hop) == Some(Sanitized(c, h, Child(h, d, hop).value, depth + 1).0)
  {
    match d
    case Struct(fields) => FieldIsKept(c, h, fields, |fields|, depth, hop.i);
    case List(items) => ElementsAre(c, h, items, |items|, depth);
    case _ =>
  }

  lemma {:induction false} WalkIsKept(c: Handler, h: Heap, d: Data, depth: nat, path: seq<Hop>)
    requires ClearWalk(c, h, d, path) && depth + |path| <= MAX_DEPTH
    ensures Walk(h, d, path).Some?
    ensures Follow(h, d, Sanitized(c, h, d, depth).0, path)
         == Some(Sanitized(c, h, Walk(h, d, path).value, depth + |path|).0)
    decreases |path|
  {
    if path == [] {
    } else {
      HopIsKept(c, h, d, depth, path[0]);
      WalkIsKept(c, h, Child(h, d, path[0]).value, depth + 1, path[1..]);
    }
  }

  /** The walk leads, in the tree, to a node that shows the value's. */
  ghost predicate ShowsAt(c: Handler, h: Heap, d: Data, depth: nat, t: Tree, path: seq<Hop>) {
    && Walk(h, d, path).Some? && Follow(h, d, t, path).Some?
    && ShowsNode(c, h, Walk(h, d, path).value, depth + |path|, Follow(h, d, t, path).value)
  }

  /** Every walk to the depth bound that crosses no ruled key leads, in the tree that was
      made, to a node that shows the value's. */
  ghost predicate ShowsUncovered(c: Handler, h: Heap, d: Data, depth: nat, t: Tree) {
    forall path :: ClearWalk(c, h, d, path) && depth + |path| <= MAX_DEPTH ==> ShowsAt(c, h, d, depth, t, path)
  }

  lemma WalkShows(c: Handler, h: Heap, d: Data, depth: nat, path: seq<Hop>)
    requires ClearWalk(c, h, d, path) && depth + |path| <= MAX_DEPTH
    ensures ShowsAt(c, h, d, depth, Sanitized(c, h, d, depth).0, path)
  {
    WalkIsKept(c, h, d, depth, path);
    NodeIsShown(c, h, Walk(h, d, path).value, depth + |path|);
  }

  /** sanitize throws nothing away but what rules cover and what lies beyond the bound. */
  lemma SanitizedShowsUncovered(c: Handler, h: Heap, d: Data, depth: nat)
    ensures ShowsUncovered(c, h, d, depth, Sanitized(c, h, d, depth).0)
  {
    forall path | ClearWalk(c, h, d, path) && depth + |path| <= MAX_DEPTH
      ensures ShowsAt(c, h, d, depth, Sanitized(c, h, d, depth).0, path)
    {
      WalkShows(c, h, d, depth, path);
    }
  }

  // ---------------------------------------------------------------- LogValuers

  /** What k LogValuers lead to, one after the other; none of them may panic. */
  function Behind(v: Value, k: nat): Option<Value> {
    if k == 0 then Some(v) else if v.Valuer? && v.next.Some? then Behind(v.next.value, k - 1) else None
  }

  /** Fewer than n LogValuers lead to w, which is none. */
  predicate LeadsTo(v: Value, n: nat, w: Value) { !w.Valuer? && exists k: nat :: k < n && Behind(v, k) == Some(w) }

  lemma LeadsOn(v: Value, n: nat, w: Value)
    requires n > 0
    ensures LeadsTo(v, n, w) <==>
            (v == w && !w.Valuer?) || (v.Valuer? && v.next.Some? && LeadsTo(v.next.value, n - 1, w))
  {
    if LeadsTo(v, n, w) {
      var k: nat :| k < n && Behind(v, k) == Some(w);
      if k > 0 {
        assert Behind(v.next.value, k - 1) == Some(w);
      }
    }
    if v == w && !w.Valuer? {
      assert Behind(v, 0) == Some(w);
    }
    if v.Valuer? && v.next.Some? && LeadsTo(v.next.value, n - 1, w) {
      var k: nat :| k < n - 1 && Behind(v.next.value, k) == Some(w);
      assert Behind(v, k + 1) == Some(w);
    }
  }

  lemma {:induction false} ResolvesWithin(v: Value, n: nat, w: Value)
    ensures Resolve(v, n) == Some(w) <==> LeadsTo(v, n, w)
  {
    if n == 0 {
    } else {
      LeadsOn(v, n, w);
      if v.Valuer? && v.next.Some? {
        ResolvesWithin(v.next.value, n - 1, w);
      }
    }
  }

  /** A value resolves exactly if fewer than ten LogValuers, none of which panics, lead from
      it to one that is none, and to that. */
  lemma ResolvesExactlyBehindFewerThanTen(v: Value, w: Value)
    ensures Resolved(v) == Some(w) <==> LeadsTo(v, 10, w)
  {
    ResolvesWithin(v, MAX_LOG_VALUES, w);
  }

  // ---------------------------------------------------------------- records

  /** What the next handler sees under an attribute's key: the value itself where nothing in
      it is covered, what a rule leaves of it, or its members shown likewise. */
  ghost predicate ShowsAttr(c: Handler, h: Heap, a: Attr, depth: nat, t: Tree)
    decreases Left(depth), 0
  {
    if depth >= MAX_DEPTH then t == Said(UNLOGGABLE)
    else if Ruled(c, a.key) && RuleOf(c, a.key).Hide? then t == Said(c.replacement)
    else
      match Resolved(a.value)
      case None => t == Said(UNLOGGABLE)
      case Some(v) =>
        if Ruled(c, a.key) then ShowsCovered(c, a.key, ValueString(c, h, v), t)
        else
          match v
          case Text(s) => t == Said(s)
          case Scalar(text) => t == Plain(text)
          case Valuer(_) => true
          case Any(data) =>
            if Exposed(c, h, data, depth) then ShowsUncovered(c, h, data, depth, t) else t == View(h, data, depth)
          case Group(members) =>
            && t.Grouped? && |t.members| == |members|
            && forall i :: 0 <= i < |members| ==> ShowsMember(c, h, members[i], depth + 1, t.members[i])
  }

  ghost predicate ShowsMember(c: Handler, h: Heap, a: Attr, depth: nat, seen: (string, Tree))
    decreases Left(depth), 1
  {
    seen.0 == a.key && ShowsAttr(c, h, a, depth, seen.1)
  }

  /** What the next handler sees in place of an attribute. */
  function SeenFor(c: Handler, h: Heap, a: Attr, depth: nat): (string, Tree) {
    Seen(h, Processed(c, h, a, depth).0, depth)
  }

  lemma CoveredAttrShows(c: Handler, h: Heap, a: Attr, depth: nat)
    requires depth >= MAX_DEPTH || Ruled(c, a.key) || Resolved(a.value).None?
    ensures ShowsMember(c, h, a, depth, SeenFor(c, h, a, depth))
  {
    if depth < MAX_DEPTH && Resolved(a.value).Some? && Ruled(c, a.key) && RuleOf(c, a.key).Cover? {
      MaskHidesTheMiddle(ValueString(c, h, Resolved(a.value).value), RuleOf(c, a.key).mask);
    }
  }

  lemma DataAttrShows(c: Handler, h: Heap, a: Attr, depth: nat)
    requires depth < MAX_DEPTH && !Ruled(c, a.key) && Resolved(a.value).Some? && Resolved(a.value).value.Any?
    ensures ShowsMember(c, h, a, depth, SeenFor(c, h, a, depth))
  {
    var data := Resolved(a.value).value.data;
    ChangedExactlyWhenExposed(c, h, data, depth);
    SanitizedShowsUncovered(c, h, data, depth);
  }

  lemma GroupAttrShows(c: Handler, h: Heap, a: Attr, depth: nat, members: seq<Attr>)
    requires depth < MAX_DEPTH && !Ruled(c, a.key) && Resolved(a.value) == Some(Group(members))
    requires forall i :: 0 <= i < |members| ==>
               ShowsMember(c, h, members[i], depth + 1, SeenFor(c, h, members[i], depth + 1))
    ensures ShowsMember(c, h, a, depth, SeenFor(c, h, a, depth))
  {
    GroupIsItsMembers(c, h, a, depth);
    MembersChange(c, h, members, |members|, depth + 1);
    var shown := SeenAll(h, Members(c, h, members, |members|, depth + 1).0, depth + 1);
    assert SeenFor(c, h, a, depth) == (a.key, Grouped(shown));
    forall i | 0 <= i < |members| ensures ShowsMember(c, h, members[i], depth + 1, shown[i]) {
      assert shown[i] == SeenFor(c, h, members[i], depth + 1);
    }
  }

  lemma {:induction false} ProcessedShows(c: Handler, h: Heap, a: Attr, depth: nat)
    ensures ShowsMember(c, h, a, depth, SeenFor(c, h, a, depth))
    decreases Left(depth)
  {
    if depth >= MAX_DEPTH || Ruled(c, a.key) || Resolved(a.value).None? {
      CoveredAttrShows(c, h, a, depth);
    } else {
      match Resolved(a.value).value
      case Any(_) => DataAttrShows(c, h, a, depth);
      case Group(members) =>
        forall i | 0 <= i < |members|
          ensures ShowsMember(c, h, members[i], depth + 1, SeenFor(c, h, members[i], depth + 1))
        {
          ProcessedShows(c, h, members[i], depth + 1);
        }
        GroupAttrShows(c, h, a, depth, members);
      case _ =>
    }
  }

  /** The record that leaves the handler has the attributes of the one that came, in their
      order and under their keys, and each shows all of its value that no rule covers. */
  lemma RecordsShowTheUncovered(c: Handler, h: Heap, attrs: seq<Attr>, i: nat)
    requires i < |attrs|
    ensures var seen := SeenAll(h, Handled(c, h, attrs), 0);
      |seen| == |attrs| && ShowsMember(c, h, attrs[i], 0, seen[i])
  {
    HandledIsMembers(c, h, attrs);
    MembersChange(c, h, attrs, |attrs|, 0);
    ProcessedShows(c, h, attrs[i], 0);
  }
}
