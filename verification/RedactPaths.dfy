/** What makes the handler rewrite a value, told by paths into it instead of by the
    recursion that looks for it. */
module RedactPaths {
  import opened Common
  import opened Redact

  datatype Hop = Deref | Open | AtField(i: nat) | AtKey(key: string) | AtIndex(i: nat)

  function Child(h: Heap, d: Data, hop: Hop): Option<Data> {
    match hop
    case Deref => if d.Ptr? && d.addr in h then Some(h[d.addr]) else None
    case Open => if d.Iface? then Some(d.inner) else None
    case AtField(i) => if d.Struct? && i < |d.fields| then Some(d.fields[i].data) else None
    case AtKey(key) => if d.Table? && key in d.entries then Some(d.entries[key]) else None
    case AtIndex(i) => if d.List? && i < |d.items| then Some(d.items[i]) else None
  }

  function Walk(h: Heap, d: Data, path: seq<Hop>): Option<Data>
    decreases |path|
  {
    if path == [] then Some(d)
    else
      match Child(h, d, path[0])
      case None => None
      case Some(child) => Walk(h, child, path[1..])
  }

  ghost predicate HasRuledKey(c: Handler, d: Data) {
    || (d.Struct? && exists i :: 0 <= i < |d.fields| && Ruled(c, d.fields[i].name))
    || (d.Table? && exists k :: k in d.entries && Ruled(c, k))
  }

  /** The walk reaches a node with a ruled key, or one at MAX_DEPTH or beyond. */
  ghost predicate Exposes(c: Handler, h: Heap, d: Data, depth: nat, path: seq<Hop>) {
    Walk(h, d, path).Some? && (depth + |path| >= MAX_DEPTH || HasRuledKey(c, Walk(h, d, path).value))
  }

  ghost predicate Exposed(c: Handler, h: Heap, d: Data, depth: nat) { exists path :: Exposes(c, h, d, depth, path) }

  lemma ExposedBelow(c: Handler, h: Heap, d: Data, depth: nat, hop: Hop)
    requires Child(h, d, hop).Some? && Exposed(c, h, Child(h, d, hop).value, depth + 1)
    ensures Exposed(c, h, d, depth)
  {
    var path :| Exposes(c, h, Child(h, d, hop).value, depth + 1, path);
    assert ([hop] + path)[1..] == path;
    assert Exposes(c, h, d, depth, [hop] + path);
  }

  lemma ExposedHere(c: Handler, h: Heap, d: Data, depth: nat)
    requires depth >= MAX_DEPTH || HasRuledKey(c, d)
    ensures Exposed(c, h, d, depth)
  {
    assert Walk(h, d, []) == Some(d);
    assert Exposes(c, h, d, depth, []);
  }

  lemma {:induction false} ChangedIsExposed(c: Handler, h: Heap, d: Data, depth: nat)
    requires Sanitized(c, h, d, depth).1
    ensures Exposed(c, h, d, depth)
    decreases Left(depth)
  {
    if depth >= MAX_DEPTH || HasRuledKey(c, d) {
      ExposedHere(c, h, d, depth);
    } else {
      var hop := ChangedChild(c, h, d, depth);
      ChangedIsExposed(c, h, Child(h, d, hop).value, depth + 1);
      ExposedBelow(c, h, d, depth, hop);
    }
  }

  /** What changed without a rule at d itself changed below d. */
  lemma ChangedChild(c: Handler, h: Heap, d: Data, depth: nat) returns (hop: Hop)
    requires depth < MAX_DEPTH && !HasRuledKey(c, d) && Sanitized(c, h, d, depth).1
    ensures Child(h, d, hop).Some? && Sanitized(c, h, Child(h, d, hop).value, depth + 1).1
  {
    match d
    case Ptr(_) => hop := Deref;
    case Iface(_) => hop := Open;
    case Struct(fields) =>
      FieldsChange(c, h, fields, |fields|, depth);
      var i :| 0 <= i < |fields| && Entry(c, h, fields[i].name, fields[i].data, depth).1;
      hop := AtField(i);
    case Table(entries) =>
      var k :| k in entries && Entry(c, h, k, entries[k], depth).1;
      hop := AtKey(k);
    case List(items) =>
      ElementsChange(c, h, items, |items|, depth);
      var i :| 0 <= i < |items| && Sanitized(c, h, items[i], depth + 1).1;
      hop := AtIndex(i);
  }

  lemma RuledKeyChanges(c: Handler, h: Heap, d: Data, depth: nat)
    requires depth < MAX_DEPTH && HasRuledKey(c, d)
    ensures Sanitized(c, h, d, depth).1
  {
    if d.Struct? {
      FieldsChange(c, h, d.fields, |d.fields|, depth);
      var i :| 0 <= i < |d.fields| && Ruled(c, d.fields[i].name);
      assert Entry(c, h, d.fields[i].name, d.fields[i].data, depth).1;
    } else {
      var k :| k in d.entries && Ruled(c, k);
      assert Entry(c, h, k, d.entries[k], depth).1;
    }
  }

  lemma ChildChanges(c: Handler, h: Heap, d: Data, depth: nat, hop: Hop)
    requires depth < MAX_DEPTH && Child(h, d, hop).Some? && Sanitized(c, h, Child(h, d, hop).value, depth + 1).1
    ensures Sanitized(c, h, d, depth).1
  {
    match d
    case Struct(fields) =>
      FieldsChange(c, h, fields, |fields|, depth);
      assert Entry(c, h, fields[hop.i].name, fields[hop.i].data, depth).1;
    case Table(entries) => assert Entry(c, h, hop.key, entries[hop.key], depth).1;
    case List(items) => ElementsChange(c, h, items, |items|, depth);
    case _ =>
  }

  lemma {:induction false} ExposingChanges(c: Handler, h: Heap, d: Data, depth: nat, path: seq<Hop>)
    requires Exposes(c, h, d, depth, path)
    ensures Sanitized(c, h, d, depth).1
    decreases |path|
  {
    if depth >= MAX_DEPTH {
    } else {
      if path == [] {
        RuledKeyChanges(c, h, d, depth);
      } else {
        ExposingChanges(c, h, Child(h, d, path[0]).value, depth + 1, path[1..]);
        ChildChanges(c, h, d, depth, path[0]);
      }
    }
  }

  /** sanitize reports a change exactly when some path of at most MAX_DEPTH - depth hops
      leads to a struct or map with a ruled key, or the value goes on for that many. */
  lemma ChangedExactlyWhenExposed(c: Handler, h: Heap, d: Data, depth: nat)
    ensures Sanitized(c, h, d, depth).1 <==> Exposed(c, h, d, depth)
  {
    if Sanitized(c, h, d, depth).1 {
      ChangedIsExposed(c, h, d, depth);
    }
    if Exposed(c, h, d, depth) {
      var path :| Exposes(c, h, d, depth, path);
      ExposingChanges(c, h, d, depth, path);
    }
  }

  // ---------------------------------------------------------------- attributes

  /** The attribute that group indices lead to. */
  function AttrAt(a: Attr, path: seq<nat>): Option<Attr>
    decreases |path|
  {
    if path == [] then Some(a)
    else
      match Resolved(a.value)
      case Some(Group(members)) => if path[0] < |members| then AttrAt(members[path[0]], path[1..]) else None
      case _ => None
  }

  /** Reason enough, at an attribute itself, to rewrite it. */
  ghost predicate Reason(c: Handler, h: Heap, a: Attr, depth: nat) {
    || depth >= MAX_DEPTH
    || Ruled(c, a.key)
    || Resolved(a.value).None?
    || (Resolved(a.value).value.Any? && Exposed(c, h, Resolved(a.value).value.data, depth))
  }

  ghost predicate ReasonAt(c: Handler, h: Heap, a: Attr, depth: nat, path: seq<nat>) {
    AttrAt(a, path).Some? && Reason(c, h, AttrAt(a, path).value, depth + |path|)
  }

  lemma ReasonChanges(c: Handler, h: Heap, a: Attr, depth: nat)
    requires Reason(c, h, a, depth)
    ensures Processed(c, h, a, depth).1
  {
    if depth < MAX_DEPTH && !Ruled(c, a.key) && Resolved(a.value).Some? {
      ChangedExactlyWhenExposed(c, h, Resolved(a.value).value.data, depth);
    }
  }

  lemma {:induction false} ReasonAtChanges(c: Handler, h: Heap, a: Attr, depth: nat, path: seq<nat>)
    requires ReasonAt(c, h, a, depth, path)
    ensures Processed(c, h, a, depth).1
    decreases |path|
  {
    if path == [] || Reason(c, h, a, depth) {
      ReasonChanges(c, h, a, depth);
    } else {
      var members := Resolved(a.value).value.members;
      ReasonAtChanges(c, h, members[path[0]], depth + 1, path[1..]);
      MembersChange(c, h, members, |members|, depth + 1);
    }
  }

  /** A group changed because a member did. */
  lemma ChangedMember(c: Handler, h: Heap, a: Attr, depth: nat) returns (members: seq<Attr>, i: nat)
    requires Processed(c, h, a, depth).1 && !Reason(c, h, a, depth)
    ensures Resolved(a.value) == Some(Group(members)) && i < |members| && depth < MAX_DEPTH
    ensures Processed(c, h, members[i], depth + 1).1
  {
    var v := Resolved(a.value).value;
    if v.Any? {
      ChangedExactlyWhenExposed(c, h, v.data, depth);
    }
    members := v.members;
    MembersChange(c, h, members, |members|, depth + 1);
    i :| 0 <= i < |members| && Processed(c, h, members[i], depth + 1).1;
  }

  lemma {:induction false} ChangedHasReason(c: Handler, h: Heap, a: Attr, depth: nat) returns (path: seq<nat>)
    requires Processed(c, h, a, depth).1
    ensures ReasonAt(c, h, a, depth, path)
    decreases Left(depth)
  {
    if Reason(c, h, a, depth) {
      path := [];
    } else {
      var members, i := ChangedMember(c, h, a, depth);
      var rest := ChangedHasReason(c, h, members[i], depth + 1);
      path := [i] + rest;
      assert path[1..] == rest;
    }
  }

  /** The handler passes a record on untouched exactly when no path through its groups
      reaches an attribute with a ruled key, a LogValuer that does not resolve, a value
      in which something is exposed, or the depth bound. */
  lemma UntouchedExactlyWithoutReason(c: Handler, h: Heap, attrs: seq<Attr>)
    ensures Handled(c, h, attrs) == Keep(attrs) && !Members(c, h, attrs, |attrs|, 0).1
            <==> forall i, path :: 0 <= i < |attrs| ==> !ReasonAt(c, h, attrs[i], 0, path)
  {
    MembersChange(c, h, attrs, |attrs|, 0);
    forall i, path | 0 <= i < |attrs| && ReasonAt(c, h, attrs[i], 0, path) ensures Processed(c, h, attrs[i], 0).1 {
      ReasonAtChanges(c, h, attrs[i], 0, path);
    }
    if Members(c, h, attrs, |attrs|, 0).1 {
      var i :| 0 <= i < |attrs| && Processed(c, h, attrs[i], 0).1;
      var path := ChangedHasReason(c, h, attrs[i], 0);
    }
  }

  // ---------------------------------------------------------------- going round in circles

  /** A pointer to itself is looked at a bounded number of times and cut off. */
  lemma {:induction false} CycleIsCutOff(c: Handler, h: Heap, addr: nat, depth: nat)
    requires addr in h && h[addr] == Ptr(addr)
    ensures Sanitized(c, h, Ptr(addr), depth) == (Said(UNLOGGABLE), true)
    decreases Left(depth)
  {
    if depth >= MAX_DEPTH {
    } else {
      CycleIsCutOff(c, h, addr, depth + 1);
    }
  }
}
