/** process, sanitize and Handle as the loops that logger/redact.go runs. */
module RedactHandler {
  import opened Common
  import opened Redact

  method Resolving(v: Value) returns (r: Option<Value>)
    ensures r == Resolved(v)
  {
    var next := v;
    for i := 0 to MAX_LOG_VALUES
      invariant Resolved(v) == Resolve(next, MAX_LOG_VALUES - i)
    {
      if !next.Valuer? {
        return Some(next);
      }
      if next.next.None? {
        return None;
      }
      next := next.next.value;
    }
    return None;
  }

  /** A field's or an entry's value: its rule applied, or sanitized one level down. */
  method SanitizeEntry(c: Handler, h: Heap, key: string, d: Data, depth: nat) returns (t: Tree, changed: bool)
    requires depth < MAX_DEPTH
    ensures (t, changed) == Entry(c, h, key, d, depth)
    decreases Left(depth), 0
  {
    if Ruled(c, key) {
      match RuleOf(c, key)
      case Hide => return Said(c.replacement), true;
      case Cover(mask) => return Said(MaskString(c.render(h, d), mask)), true;
    }
    t, changed := Sanitize(c, h, d, depth + 1);
  }

  method Sanitize(c: Handler, h: Heap, d: Data, depth: nat) returns (t: Tree, changed: bool)
    ensures (t, changed) == Sanitized(c, h, d, depth)
    decreases Left(depth), 2
  {
    if depth >= MAX_DEPTH {
      return Said(UNLOGGABLE), true;
    }
    match d
    case Nil => return Null, false;
    case Leaf(text) => return Plain(text), false;
    case Ptr(addr) =>
      if addr !in h {
        return Null, false;
      }
      t, changed := Sanitize(c, h, h[addr], depth + 1);
    case Iface(inner) => t, changed := Sanitize(c, h, inner, depth + 1);
    case Struct(fields) => t, changed := SanitizeStruct(c, h, fields, depth);
    case Table(entries) => t, changed := SanitizeTable(c, h, entries, depth);
    case List(items) => t, changed := SanitizeList(c, h, items, depth);
  }

  method SanitizeStruct(c: Handler, h: Heap, fields: seq<Field>, depth: nat) returns (t: Tree, changed: bool)
    requires depth < MAX_DEPTH
    ensures (t, changed) == Sanitized(c, h, Struct(fields), depth)
    decreases Left(depth), 1
  {
    var m: map<string, Tree> := map[];
    changed := false;
    for i := 0 to |fields|
      invariant (m, changed) == Fields(c, h, fields, i, depth)
    {
      var s, more := SanitizeEntry(c, h, fields[i].name, fields[i].data, depth);
      m := m[fields[i].name := s];
      changed := changed || more;
    }
    return Dict(m), changed;
  }

  /** Whatever order the map yields its entries in, the outcome is the same. */
  method SanitizeTable(c: Handler, h: Heap, entries: map<string, Data>, depth: nat) returns (t: Tree, changed: bool)
    requires depth < MAX_DEPTH
    ensures (t, changed) == Sanitized(c, h, Table(entries), depth)
    decreases Left(depth), 1
  {
    var m: map<string, Tree> := map[];
    changed := false;
    var todo := entries.Keys;
    while todo != {}
      invariant todo <= entries.Keys && m.Keys == entries.Keys - todo
      invariant forall k :: k in m ==> m[k] == Entry(c, h, k, entries[k], depth).0
      invariant changed <==> exists k :: k in m && Entry(c, h, k, entries[k], depth).1
      decreases todo
    {
      var key := AnyOf(todo);
      var s, more := SanitizeEntry(c, h, key, entries[key], depth);
      m := m[key := s];
      changed := changed || more;
      todo := todo - {key};
    }
    assert m == Sanitized(c, h, Table(entries), depth).0.entries;
    return Dict(m), changed;
  }

  method SanitizeList(c: Handler, h: Heap, items: seq<Data>, depth: nat) returns (t: Tree, changed: bool)
    requires depth < MAX_DEPTH
    ensures (t, changed) == Sanitized(c, h, List(items), depth)
    decreases Left(depth), 1
  {
    var ts: seq<Tree> := [];
    changed := false;
    for i := 0 to |items|
      invariant (ts, changed) == Elements(c, h, items, i, depth)
    {
      var s, more := Sanitize(c, h, items[i], depth + 1);
      ts := ts + [s];
      changed := changed || more;
    }
    return Items(ts), changed;
  }

  method Process(c: Handler, h: Heap, a: Attr, depth: nat) returns (out: Out, changed: bool)
    ensures (out, changed) == Processed(c, h, a, depth)
    decreases Left(depth), 2
  {
    if depth >= MAX_DEPTH {
      return Made(a.key, Said(UNLOGGABLE)), true;
    }
    if Ruled(c, a.key) && RuleOf(c, a.key).Hide? {
      return Made(a.key, Said(c.replacement)), true;
    }
    var r := Resolving(a.value);
    if r.None? {
      return Made(a.key, Said(UNLOGGABLE)), true;
    }
    if Ruled(c, a.key) {
      return Made(a.key, Said(MaskString(ValueString(c, h, r.value), RuleOf(c, a.key).mask))), true;
    }
    match r.value {
    case Group(members) =>
      var outs, more := ProcessAll(c, h, members, depth + 1);
      if more {
        return MadeGroup(a.key, outs), true;
      }
    case Any(data) =>
      var t, more := Sanitize(c, h, data, depth);
      if more {
        return Made(a.key, t), true;
      }
    case _ =>
    }
    return Kept(a), false;
  }

  method ProcessAll(c: Handler, h: Heap, attrs: seq<Attr>, depth: nat) returns (outs: seq<Out>, changed: bool)
    ensures (outs, changed) == Members(c, h, attrs, |attrs|, depth)
    decreases Left(depth), 3
  {
    outs, changed := [], false;
    for i := 0 to |attrs|
      invariant (outs, changed) == Members(c, h, attrs, i, depth)
    {
      var out, more := Process(c, h, attrs[i], depth);
      outs := outs + [out];
      changed := changed || more;
    }
  }

  /** Handle: the record it passes on, and whether that is the one it was given. */
  method Handle(c: Handler, h: Heap, attrs: seq<Attr>) returns (record: seq<Out>, untouched: bool)
    ensures record == Handled(c, h, attrs)
    ensures untouched <==> !Members(c, h, attrs, |attrs|, 0).1
    ensures untouched ==> record == Keep(attrs)
  {
    var outs, changed := ProcessAll(c, h, attrs, 0);
    if !changed {
      return Keep(attrs), true;
    }
    return outs, false;
  }
}
