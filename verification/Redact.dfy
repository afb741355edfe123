/** The redacting log handler of logger/redact.go: which keys it covers, what it makes of
    a record, and why records that differ only in covered values come out the same.
    Values are trees that may go round in circles through a heap of pointers. */
module Redact {
  import opened Common

  // ---------------------------------------------------------------- masks

  datatype Mask = Mask(showFirst: int, showLast: int, maskChar: char)

  function Shown(n: int): int { if n < 0 then 0 else n }

  function Repeat(c: char, n: nat): string { seq(n, _ => c) }

  function CharOf(m: Mask): char { if m.maskChar == '\0' then '*' else m.maskChar }

  /** There are characters between the two ends the mask shows. */
  predicate HasMiddle(n: nat, m: Mask) { Shown(m.showFirst) < n && Shown(m.showLast) < n - Shown(m.showFirst) }

  function MaskString(s: string, m: Mask): string {
    var first, last, n := Shown(m.showFirst), Shown(m.showLast), |s|;
    if first >= n || last >= n - first then Repeat(CharOf(m), n)
    else s[..first] + Repeat(CharOf(m), n - first - last) + s[n - last..]
  }

  /** All that a mask lets through: the length, and the two ends if anything is between. */
  predicate SameShown(s: string, t: string, m: Mask) {
    && |s| == |t|
    && (HasMiddle(|s|, m) ==>
          && s[..Shown(m.showFirst)] == t[..Shown(m.showFirst)]
          && s[|s| - Shown(m.showLast)..] == t[|t| - Shown(m.showLast)..])
  }

  /** Two values look the same behind a mask exactly when they agree on what it shows. */
  lemma MaskShowsExactly(s: string, t: string, m: Mask)
    ensures MaskString(s, m) == MaskString(t, m) <==> SameShown(s, t, m)
  {
    var first, last, n := Shown(m.showFirst), Shown(m.showLast), |s|;
    assert |MaskString(s, m)| == |s| && |MaskString(t, m)| == |t|;
    if |s| == |t| && HasMiddle(n, m) {
      var u, v := MaskString(s, m), MaskString(t, m);
      assert u[..first] == s[..first] && u[n - last..] == s[n - last..];
      assert v[..first] == t[..first] && v[n - last..] == t[n - last..];
    }
  }

  /** The mask's text, character by character: ShowFirst and ShowLast characters stay, none
      for a negative number, as long as there are others between; the rest are mask
      characters, stars by default. */
  predicate IsMasked(text: string, s: string, m: Mask) {
    var first := if m.showFirst > 0 then m.showFirst else 0;
    var last := if m.showLast > 0 then m.showLast else 0;
    && |text| == |s|
    && forall i :: 0 <= i < |s| ==>
         text[i] ==
           if first + last < |s| && (i < first || i >= |s| - last) then s[i]
           else if m.maskChar == '\0' then '*' else m.maskChar
  }

  /** Every character that is neither in the shown start nor the shown end is replaced. */
  lemma MaskHidesTheMiddle(s: string, m: Mask)
    ensures IsMasked(MaskString(s, m), s, m)
  {
  }

  // ---------------------------------------------------------------- rules

  datatype Rule = Hide | Cover(mask: Mask)

  type Rules = map<string, Rule>

  datatype RedactConfig = RedactConfig(redacted: seq<string>, replacement: string, masked: seq<(string, Mask)>)

  const DEFAULT_REPLACEMENT := "[REDACTED]"
  const UNLOGGABLE := "[UNLOGGABLE]"

  /** The first n entries of a list of keys contain one that reads key in lower case. */
  ghost predicate Lists(lower: string -> string, keys: seq<string>, n: nat, key: string)
    requires n <= |keys|
  {
    exists i :: 0 <= i < n && lower(keys[i]) == key
  }

  ghost predicate Masks(lower: string -> string, masked: seq<(string, Mask)>, n: nat, key: string)
    requires n <= |masked|
  {
    exists i :: 0 <= i < n && lower(masked[i].0) == key
  }

  ghost predicate MasksAs(lower: string -> string, masked: seq<(string, Mask)>, key: string, mask: Mask) {
    exists i :: 0 <= i < |masked| && lower(masked[i].0) == key && masked[i].1 == mask
  }

  lemma ListsSnoc(lower: string -> string, keys: seq<string>, n: nat, key: string)
    requires n < |keys|
    ensures Lists(lower, keys, n + 1, key) <==> Lists(lower, keys, n, key) || key == lower(keys[n])
  {
    if Lists(lower, keys, n, key) {
      var i :| 0 <= i < n && lower(keys[i]) == key;
      assert 0 <= i < n + 1;
    }
  }

  lemma MasksSnoc(lower: string -> string, masked: seq<(string, Mask)>, n: nat, key: string)
    requires n < |masked|
    ensures Masks(lower, masked, n + 1, key) <==> Masks(lower, masked, n, key) || key == lower(masked[n].0)
  {
    if Masks(lower, masked, n, key) {
      var i :| 0 <= i < n && lower(masked[i].0) == key;
      assert 0 <= i < n + 1;
    }
  }

  /** The rules wrapRedact sets up. The masks arrive in whatever order the map yields. */
  method WrapRedact(r: RedactConfig, lower: string -> string) returns (rules: Option<Rules>, replacement: string)
    ensures rules.None? <==> r.redacted == [] && r.masked == []
    ensures rules.Some? ==> forall key ::
              && (key in rules.value <==>
                    (Lists(lower, r.redacted, |r.redacted|, key) || Masks(lower, r.masked, |r.masked|, key)))
              && (key in rules.value ==> (rules.value[key].Hide? <==> Lists(lower, r.redacted, |r.redacted|, key)))
              && (key in rules.value && rules.value[key].Cover? ==>
                  MasksAs(lower, r.masked, key, rules.value[key].mask))
    ensures replacement == if r.replacement == "" then DEFAULT_REPLACEMENT else r.replacement
  {
    replacement := if r.replacement == "" then DEFAULT_REPLACEMENT else r.replacement;
    if |r.redacted| == 0 && |r.masked| == 0 {
      return None, replacement;
    }
    var m: Rules := map[];
    for i := 0 to |r.masked|
      invariant forall key :: key in m <==> Masks(lower, r.masked, i, key)
      invariant forall key :: key in m ==> m[key].Cover? && MasksAs(lower, r.masked, key, m[key].mask)
    {
      var key := lower(r.masked[i].0);
      assert MasksAs(lower, r.masked, key, r.masked[i].1);
      forall k ensures Masks(lower, r.masked, i + 1, k) <==> Masks(lower, r.masked, i, k) || k == key {
        MasksSnoc(lower, r.masked, i, k);
      }
      m := m[key := Cover(r.masked[i].1)];
    }
    for i := 0 to |r.redacted|
      invariant forall key :: key in m <==> Lists(lower, r.redacted, i, key) || Masks(lower, r.masked, |r.masked|, key)
      invariant forall key :: key in m ==> (m[key].Hide? <==> Lists(lower, r.redacted, i, key))
      invariant forall key :: key in m && m[key].Cover? ==> MasksAs(lower, r.masked, key, m[key].mask)
    {
      var key := lower(r.redacted[i]);
      forall k ensures Lists(lower, r.redacted, i + 1, k) <==> Lists(lower, r.redacted, i, k) || k == key {
        ListsSnoc(lower, r.redacted, i, k);
      }
      m := m[key := Hide];
    }
    return Some(m), replacement;
  }

  // ---------------------------------------------------------------- values

  /** What reflection sees: scalars, nil, pointers into the heap, interfaces, structs by
      their planned fields, maps by their rendered keys, slices and arrays. */
  datatype Data =
    | Nil
    | Leaf(text: string)
    | Ptr(addr: nat)
    | Iface(inner: Data)
    | Struct(fields: seq<Field>)
    | Table(entries: map<string, Data>)
    | List(items: seq<Data>)

  datatype Field = Field(name: string, data: Data)

  type Heap = map<nat, Data>

  /** slog values: a LogValuer that panics has no next value. */
  datatype Value =
    | Text(s: string)
    | Scalar(text: string)
    | Group(members: seq<Attr>)
    | Valuer(next: Option<Value>)
    | Any(data: Data)

  datatype Attr = Attr(key: string, value: Value)

  /** What a handler after this one can see of a value, pointers followed. */
  datatype Tree =
    | Null
    | Plain(text: string)
    | Said(s: string)
    | Ref(to: Tree)
    | Record(fields: seq<(string, Tree)>)
    | Dict(entries: map<string, Tree>)
    | Items(items: seq<Tree>)
    | Grouped(members: seq<(string, Tree)>)
    | TooDeep

  /** A handler: its rules, and how Go lowers keys and renders values for masking. */
  datatype Handler = Handler(
    rules: Rules, replacement: string,
    lower: string -> string, render: (Heap, Data) -> string, renderValue: (Heap, Value) -> string)

  const MAX_DEPTH := 16
  const MAX_LOG_VALUES := 10

  function Left(depth: nat): nat { if depth < MAX_DEPTH then MAX_DEPTH - depth else 0 }

  predicate Ruled(c: Handler, key: string) { c.lower(key) in c.rules }

  function RuleOf(c: Handler, key: string): Rule
    requires Ruled(c, key)
  {
    c.rules[c.lower(key)]
  }

  // ---------------------------------------------------------------- sanitize

  /** One struct field or map entry: its rule applied, or its value sanitized below. */
  function Entry(c: Handler, h: Heap, key: string, d: Data, depth: nat): (Tree, bool)
    requires depth < MAX_DEPTH
    decreases Left(depth), 0, 0
  {
    if Ruled(c, key) then
      match RuleOf(c, key)
      case Hide => (Said(c.replacement), true)
      case Cover(mask) => (Said(MaskString(c.render(h, d), mask)), true)
    else Sanitized(c, h, d, depth + 1)
  }

  /** A struct's first n fields; of two fields of one name the later one stays. */
  function Fields(c: Handler, h: Heap, fields: seq<Field>, n: nat, depth: nat): (map<string, Tree>, bool)
    requires n <= |fields| && depth < MAX_DEPTH
    decreases Left(depth), 1, n
  {
    if n == 0 then (map[], false)
    else
      var (m, changed) := Fields(c, h, fields, n - 1, depth);
      var (t, more) := Entry(c, h, fields[n - 1].name, fields[n - 1].data, depth);
      (m[fields[n - 1].name := t], changed || more)
  }

  function Elements(c: Handler, h: Heap, items: seq<Data>, n: nat, depth: nat): (seq<Tree>, bool)
    requires n <= |items| && depth < MAX_DEPTH
    decreases Left(depth), 1, n
  {
    if n == 0 then ([], false)
    else
      var (ts, changed) := Elements(c, h, items, n - 1, depth);
      var (t, more) := Sanitized(c, h, items[n - 1], depth + 1);
      (ts + [t], changed || more)
  }

  /** sanitize: the rewritten tree, and whether any rule or the depth bound applied. */
  function Sanitized(c: Handler, h: Heap, d: Data, depth: nat): (Tree, bool)
    decreases Left(depth), 2, 0
  {
    if depth >= MAX_DEPTH then (Said(UNLOGGABLE), true)
    else
      match d
      case Nil => (Null, false)
      case Leaf(text) => (Plain(text), false)
      case Ptr(addr) => if addr in h then Sanitized(c, h, h[addr], depth + 1) else (Null, false)
      case Iface(inner) => Sanitized(c, h, inner, depth + 1)
      case Struct(fields) => var (m, changed) := Fields(c, h, fields, |fields|, depth); (Dict(m), changed)
      case Table(entries) =>
        (Dict(map k | k in entries :: Entry(c, h, k, entries[k], depth).0),
         exists k :: k in entries && Entry(c, h, k, entries[k], depth).1)
      case List(items) => var (ts, changed) := Elements(c, h, items, |items|, depth); (Items(ts), changed)
  }

  /** The untouched value as the next handler sees it, as deep as sanitize looks. */
  function View(h: Heap, d: Data, depth: nat): Tree
    decreases Left(depth)
  {
    if depth >= MAX_DEPTH then TooDeep
    else
      match d
      case Nil => Null
      case Leaf(text) => Plain(text)
      case Ptr(addr) => if addr in h then Ref(View(h, h[addr], depth + 1)) else Null
      case Iface(inner) => Ref(View(h, inner, depth + 1))
      case Struct(fields) => Record(seq(|fields|,
          i requires 0 <= i < |fields| => (fields[i].name, View(h, fields[i].data, depth + 1))))
      case Table(entries) => Dict(map k | k in entries :: View(h, entries[k], depth + 1))
      case List(items) => Items(seq(|items|, i requires 0 <= i < |items| => View(h, items[i], depth + 1)))
  }

  // ---------------------------------------------------------------- process

  /** resolve: at most MAX_LOG_VALUES looks, and no look past a panic. */
  function Resolve(v: Value, n: nat): Option<Value> {
    if n == 0 then None
    else if !v.Valuer? then Some(v)
    else if v.next.None? then None
    else Resolve(v.next.value, n - 1)
  }

  function Resolved(v: Value): Option<Value> { Resolve(v, MAX_LOG_VALUES) }

  function ValueString(c: Handler, h: Heap, v: Value): string { if v.Text? then v.s else c.renderValue(h, v) }

  /** The attribute's value as the next handler sees it when nothing was rewritten. */
  function ViewValue(h: Heap, v: Value, depth: nat): Tree
    decreases Left(depth)
  {
    if depth >= MAX_DEPTH then TooDeep
    else
      match Resolved(v)
      case None => TooDeep
      case Some(Text(s)) => Said(s)
      case Some(Scalar(text)) => Plain(text)
      case Some(Valuer(_)) => TooDeep
      case Some(Any(data)) => View(h, data, depth)
      case Some(Group(members)) =>
        Grouped(seq(|members|,
          i requires 0 <= i < |members| => (members[i].key, ViewValue(h, members[i].value, depth + 1))))
  }

  /** What goes on to the next handler: the attribute itself, a value made for its key,
      or a group made of such. */
  datatype Out =
    | Kept(attr: Attr)
    | Made(key: string, tree: Tree)
    | MadeGroup(key: string, members: seq<Out>)

  /** process: what goes on for the attribute, and whether it changed. */
  function Processed(c: Handler, h: Heap, a: Attr, depth: nat): (Out, bool)
    decreases Left(depth), 2, 0
  {
    if depth >= MAX_DEPTH then (Made(a.key, Said(UNLOGGABLE)), true)
    else if Ruled(c, a.key) && RuleOf(c, a.key).Hide? then (Made(a.key, Said(c.replacement)), true)
    else
      match Resolved(a.value)
      case None => (Made(a.key, Said(UNLOGGABLE)), true)
      case Some(v) =>
        if Ruled(c, a.key) then (Made(a.key, Said(MaskString(ValueString(c, h, v), RuleOf(c, a.key).mask))), true)
        else
          match v
          case Group(members) =>
            var (outs, changed) := Members(c, h, members, |members|, depth + 1);
            if changed then (MadeGroup(a.key, outs), true) else (Kept(a), false)
          case Any(data) =>
            var (t, changed) := Sanitized(c, h, data, depth);
            if changed then (Made(a.key, t), true) else (Kept(a), false)
          case _ => (Kept(a), false)
  }

  /** The first n attributes of a group or a record. */
  function Members(c: Handler, h: Heap, members: seq<Attr>, n: nat, depth: nat): (seq<Out>, bool)
    requires n <= |members|
    decreases Left(depth), 3, n
  {
    if n == 0 then ([], false)
    else
      var (outs, changed) := Members(c, h, members, n - 1, depth);
      var (out, more) := Processed(c, h, members[n - 1], depth);
      (outs + [out], changed || more)
  }

  function Keep(attrs: seq<Attr>): seq<Out> { seq(|attrs|, i requires 0 <= i < |attrs| => Kept(attrs[i])) }

  /** Handle: the record itself when nothing changed, the processed attributes otherwise. */
  function Handled(c: Handler, h: Heap, attrs: seq<Attr>): seq<Out> {
    var (outs, changed) := Members(c, h, attrs, |attrs|, 0);
    if changed then outs else Keep(attrs)
  }

  /** What the next handler can see of what it is given. */
  function Seen(h: Heap, out: Out, depth: nat): (string, Tree) {
    match out
    case Kept(a) => (a.key, ViewValue(h, a.value, depth))
    case Made(key, tree) => (key, tree)
    case MadeGroup(key, members) =>
      (key, Grouped(seq(|members|, i requires 0 <= i < |members| => Seen(h, members[i], depth + 1))))
  }

  function SeenAll(h: Heap, outs: seq<Out>, depth: nat): seq<(string, Tree)> {
    seq(|outs|, i requires 0 <= i < |outs| => Seen(h, outs[i], depth))
  }

  // ---------------------------------------------------------------- records alike but for covered values

  /** Under a key: anything where the rule hides, what the mask shows where it covers. */
  ghost predicate AlikeUnder(c: Handler, h: Heap, d: Data, g: Heap, e: Data, key: string, depth: nat)
    requires depth < MAX_DEPTH
    decreases Left(depth), 0
  {
    if Ruled(c, key) then
      match RuleOf(c, key)
      case Hide => true
      case Cover(mask) => SameShown(c.render(h, d), c.render(g, e), mask)
    else Alike(c, h, d, g, e, depth + 1)
  }

  /** Two values, each with its own heap, that differ at most in what rules cover and
      in what lies deeper than the handler looks. */
  ghost predicate Alike(c: Handler, h: Heap, d: Data, g: Heap, e: Data, depth: nat)
    decreases Left(depth), 1
  {
    depth >= MAX_DEPTH ||
    match d
    case Nil => e.Nil?
    case Leaf(text) => e == d
    case Ptr(addr) => e.Ptr? && (addr in h <==> e.addr in g)
        && (addr in h ==> Alike(c, h, h[addr], g, g[e.addr], depth + 1))
    case Iface(inner) => e.Iface? && Alike(c, h, inner, g, e.inner, depth + 1)
    case Struct(fields) =>
      && e.Struct? && |e.fields| == |fields|
      && forall i :: 0 <= i < |fields| ==>
           fields[i].name == e.fields[i].name
           && AlikeUnder(c, h, fields[i].data, g, e.fields[i].data, fields[i].name, depth)
    case Table(entries) =>
      && e.Table? && e.entries.Keys == entries.Keys
      && forall k :: k in entries ==> AlikeUnder(c, h, entries[k], g, e.entries[k], k, depth)
    case List(items) =>
      && e.List? && |e.items| == |items|
      && forall i :: 0 <= i < |items| ==> Alike(c, h, items[i], g, e.items[i], depth + 1)
  }

  lemma {:induction false} SameEntry(c: Handler, h: Heap, d: Data, g: Heap, e: Data, key: string, depth: nat)
    requires depth < MAX_DEPTH && AlikeUnder(c, h, d, g, e, key, depth)
    ensures Entry(c, h, key, d, depth) == Entry(c, g, key, e, depth)
    decreases Left(depth), 0, 0
  {
    if Ruled(c, key) {
      if RuleOf(c, key).Cover? {
        MaskShowsExactly(c.render(h, d), c.render(g, e), RuleOf(c, key).mask);
      }
    } else {
      SameSanitized(c, h, d, g, e, depth + 1);
    }
  }

  lemma {:induction false} SameFields(c: Handler, h: Heap, fields: seq<Field>, g: Heap, others: seq<Field>, n: nat,
      depth: nat)
    requires depth < MAX_DEPTH && n <= |fields| == |others|
    requires Alike(c, h, Struct(fields), g, Struct(others), depth)
    ensures Fields(c, h, fields, n, depth) == Fields(c, g, others, n, depth)
    decreases Left(depth), 1, n
  {
    if n == 0 {
    } else {
      SameFields(c, h, fields, g, others, n - 1, depth);
      SameEntry(c, h, fields[n - 1].data, g, others[n - 1].data, fields[n - 1].name, depth);
    }
  }

  lemma {:induction false} SameElements(c: Handler, h: Heap, items: seq<Data>, g: Heap, others: seq<Data>, n: nat,
      depth: nat)
    requires depth < MAX_DEPTH && n <= |items| == |others|
    requires Alike(c, h, List(items), g, List(others), depth)
    ensures Elements(c, h, items, n, depth) == Elements(c, g, others, n, depth)
    decreases Left(depth), 1, n
  {
    if n == 0 {
    } else {
      SameElements(c, h, items, g, others, n - 1, depth);
      SameSanitized(c, h, items[n - 1], g, others[n - 1], depth + 1);
    }
  }

  lemma {:induction false} SameTable(c: Handler, h: Heap, entries: map<string, Data>, g: Heap,
      others: map<string, Data>, depth: nat)
    requires depth < MAX_DEPTH && Alike(c, h, Table(entries), g, Table(others), depth)
    ensures Sanitized(c, h, Table(entries), depth) == Sanitized(c, g, Table(others), depth)
    decreases Left(depth), 1, 0
  {
    forall k | k in entries
      ensures k in others && Entry(c, h, k, entries[k], depth) == Entry(c, g, k, others[k], depth)
    {
      assert k in others.Keys;
      SameEntry(c, h, entries[k], g, others[k], k, depth);
    }
    var s, t := Sanitized(c, h, Table(entries), depth), Sanitized(c, g, Table(others), depth);
    assert forall k :: k in others ==> k in entries.Keys;
    assert s.0.entries == t.0.entries;
  }

  /** sanitize cannot tell alike values apart, neither in its tree nor in its flag. */
  lemma {:induction false} SameSanitized(c: Handler, h: Heap, d: Data, g: Heap, e: Data, depth: nat)
    requires Alike(c, h, d, g, e, depth)
    ensures Sanitized(c, h, d, depth) == Sanitized(c, g, e, depth)
    decreases Left(depth), 2, 0
  {
    if depth >= MAX_DEPTH {
    } else {
      match d
      case Nil =>
      case Leaf(_) =>
      case Ptr(addr) =>
        if addr in h {
          SameSanitized(c, h, h[addr], g, g[e.addr], depth + 1);
        }
      case Iface(inner) => SameSanitized(c, h, inner, g, e.inner, depth + 1);
      case Struct(fields) => SameFields(c, h, fields, g, e.fields, |fields|, depth);
      case Table(entries) => SameTable(c, h, entries, g, e.entries, depth);
      case List(items) => SameElements(c, h, items, g, e.items, |items|, depth);
    }
  }

  // ---------------------------------------------------------------- unchanged means nothing to cover

  lemma {:induction false} FieldsChange(c: Handler, h: Heap, fields: seq<Field>, n: nat, depth: nat)
    requires n <= |fields| && depth < MAX_DEPTH
    ensures Fields(c, h, fields, n, depth).1 <==>
            exists i :: 0 <= i < n && Entry(c, h, fields[i].name, fields[i].data, depth).1
  {
    if n == 0 {
    } else {
      FieldsChange(c, h, fields, n - 1, depth);
    }
  }

  lemma {:induction false} ElementsChange(c: Handler, h: Heap, items: seq<Data>, n: nat, depth: nat)
    requires n <= |items| && depth < MAX_DEPTH
    ensures Elements(c, h, items, n, depth).1 <==> exists i :: 0 <= i < n && Sanitized(c, h, items[i], depth + 1).1
  {
    if n == 0 {
    } else {
      ElementsChange(c, h, items, n - 1, depth);
    }
  }

  lemma {:induction false} MembersChange(c: Handler, h: Heap, members: seq<Attr>, n: nat, depth: nat)
    requires n <= |members|
    ensures |Members(c, h, members, n, depth).0| == n
    ensures forall i :: 0 <= i < n ==> Members(c, h, members, n, depth).0[i] == Processed(c, h, members[i], depth).0
    ensures Members(c, h, members, n, depth).1 <==> exists i :: 0 <= i < n && Processed(c, h, members[i], depth).1
  {
    if n == 0 {
    } else {
      MembersChange(c, h, members, n - 1, depth);
    }
  }

  /** Alike values in which nothing changed are alike all the way: the next handler sees
      the same. */
  lemma {:induction false} SameView(c: Handler, h: Heap, d: Data, g: Heap, e: Data, depth: nat)
    requires Alike(c, h, d, g, e, depth) && !Sanitized(c, h, d, depth).1
    ensures View(h, d, depth) == View(g, e, depth)
    decreases Left(depth)
  {
    if depth >= MAX_DEPTH {
    } else {
      match d
      case Nil =>
      case Leaf(_) =>
      case Ptr(addr) =>
        if addr in h {
          SameView(c, h, h[addr], g, g[e.addr], depth + 1);
        }
      case Iface(inner) => SameView(c, h, inner, g, e.inner, depth + 1);
      case Struct(fields) => SameRecordView(c, h, fields, g, e.fields, depth);
      case Table(entries) => SameTableView(c, h, entries, g, e.entries, depth);
      case List(items) =>
        ElementsChange(c, h, items, |items|, depth);
        forall i | 0 <= i < |items| ensures View(h, items[i], depth + 1) == View(g, e.items[i], depth + 1) {
          SameView(c, h, items[i], g, e.items[i], depth + 1);
        }
        assert View(h, d, depth).items == View(g, e, depth).items;
    }
  }

  lemma {:induction false} SameRecordView(c: Handler, h: Heap, fields: seq<Field>, g: Heap, others: seq<Field>,
      depth: nat)
    requires depth < MAX_DEPTH && Alike(c, h, Struct(fields), g, Struct(others), depth)
    requires !Sanitized(c, h, Struct(fields), depth).1
    ensures View(h, Struct(fields), depth) == View(g, Struct(others), depth)
    decreases Left(depth), 0
  {
    FieldsChange(c, h, fields, |fields|, depth);
    forall i | 0 <= i < |fields| ensures View(h, fields[i].data, depth + 1) == View(g, others[i].data, depth + 1) {
      assert !Entry(c, h, fields[i].name, fields[i].data, depth).1;
      SameView(c, h, fields[i].data, g, others[i].data, depth + 1);
    }
    assert View(h, Struct(fields), depth).fields == View(g, Struct(others), depth).fields;
  }

  lemma TablesLookAlike(h: Heap, entries: map<string, Data>, g: Heap, others: map<string, Data>, depth: nat)
    requires depth < MAX_DEPTH && entries.Keys == others.Keys
    requires forall k :: k in entries ==> View(h, entries[k], depth + 1) == View(g, others[k], depth + 1)
    ensures View(h, Table(entries), depth) == View(g, Table(others), depth)
  {
    assert View(h, Table(entries), depth).entries == View(g, Table(others), depth).entries;
  }

  lemma UnchangedEntry(c: Handler, h: Heap, entries: map<string, Data>, k: string, depth: nat)
    requires depth < MAX_DEPTH && k in entries && !Sanitized(c, h, Table(entries), depth).1
    ensures !Ruled(c, k) && !Sanitized(c, h, entries[k], depth + 1).1
  {
    assert !Entry(c, h, k, entries[k], depth).1;
  }

  lemma {:induction false} SameTableView(c: Handler, h: Heap, entries: map<string, Data>, g: Heap,
      others: map<string, Data>, depth: nat)
    requires depth < MAX_DEPTH && Alike(c, h, Table(entries), g, Table(others), depth)
    requires !Sanitized(c, h, Table(entries), depth).1
    ensures View(h, Table(entries), depth) == View(g, Table(others), depth)
    decreases Left(depth), 0
  {
    forall k | k in entries ensures View(h, entries[k], depth + 1) == View(g, others[k], depth + 1) {
      UnchangedEntry(c, h, entries, k, depth);
      assert AlikeUnder(c, h, entries[k], g, others[k], k, depth);
      SameView(c, h, entries[k], g, others[k], depth + 1);
    }
    TablesLookAlike(h, entries, g, others, depth);
  }

  // ---------------------------------------------------------------- alike records

  /** Attributes that differ at most in what rules cover, wherever they are. */
  ghost predicate AlikeAttr(c: Handler, h: Heap, a: Attr, g: Heap, b: Attr, depth: nat)
    decreases Left(depth), 1
  {
    && a.key == b.key
    && (depth >= MAX_DEPTH
        || (Ruled(c, a.key) && RuleOf(c, a.key).Hide?)
        || AlikeResolved(c, h, Resolved(a.value), g, Resolved(b.value), a.key, depth))
  }

  ghost predicate AlikeResolved(c: Handler, h: Heap, x: Option<Value>, g: Heap, y: Option<Value>, key: string,
      depth: nat)
    requires depth < MAX_DEPTH && !(Ruled(c, key) && RuleOf(c, key).Hide?)
    decreases Left(depth), 0
  {
    if x.None? || y.None? then x.None? && y.None?
    else if Ruled(c, key) then SameShown(ValueString(c, h, x.value), ValueString(c, g, y.value), RuleOf(c, key).mask)
    else
      match x.value
      case Group(members) =>
        && y.value.Group? && |y.value.members| == |members|
        && forall i :: 0 <= i < |members| ==> AlikeAttr(c, h, members[i], g, y.value.members[i], depth + 1)
      case Any(data) => y.value.Any? && Alike(c, h, data, g, y.value.data, depth)
      case _ => x == y
  }

  ghost predicate AlikeAttrs(c: Handler, h: Heap, attrs: seq<Attr>, g: Heap, others: seq<Attr>, depth: nat) {
    |attrs| == |others| && forall i :: 0 <= i < |attrs| ==> AlikeAttr(c, h, attrs[i], g, others[i], depth)
  }

  lemma {:induction false} ResolvedIsNoValuer(v: Value, n: nat)
    ensures Resolve(v, n).Some? ==> !Resolve(v, n).value.Valuer?
  {
    if n == 0 || !v.Valuer? || v.next.None? {
    } else {
      ResolvedIsNoValuer(v.next.value, n - 1);
    }
  }

  /** process cannot tell alike attributes apart: the same flag, and the same to be seen. */
  lemma {:induction false} SameProcessed(c: Handler, h: Heap, a: Attr, g: Heap, b: Attr, depth: nat)
    requires AlikeAttr(c, h, a, g, b, depth)
    ensures Processed(c, h, a, depth).1 == Processed(c, g, b, depth).1
    ensures Seen(h, Processed(c, h, a, depth).0, depth) == Seen(g, Processed(c, g, b, depth).0, depth)
    decreases Left(depth), 0
  {
    if depth < MAX_DEPTH && !(Ruled(c, a.key) && RuleOf(c, a.key).Hide?) && Resolved(a.value).Some? {
      var v, w := Resolved(a.value).value, Resolved(b.value).value;
      ResolvedIsNoValuer(a.value, MAX_LOG_VALUES);
      if Ruled(c, a.key) {
        MaskShowsExactly(ValueString(c, h, v), ValueString(c, g, w), RuleOf(c, a.key).mask);
      } else if v.Group? {
        GroupIsItsMembers(c, h, a, depth);
        GroupIsItsMembers(c, g, b, depth);
        SameMembers(c, h, v.members, g, w.members, depth + 1);
      } else if v.Any? {
        SameSanitized(c, h, v.data, g, w.data, depth);
        if !Sanitized(c, h, v.data, depth).1 {
          SameView(c, h, v.data, g, w.data, depth);
        }
      }
    }
  }

  lemma UnchangedIsKept(c: Handler, h: Heap, a: Attr, depth: nat)
    requires !Processed(c, h, a, depth).1
    ensures Processed(c, h, a, depth).0 == Kept(a)
  {
  }

  lemma UnchangedAreKept(c: Handler, h: Heap, attrs: seq<Attr>, depth: nat)
    requires !Members(c, h, attrs, |attrs|, depth).1
    ensures Members(c, h, attrs, |attrs|, depth).0 == Keep(attrs)
  {
    MembersChange(c, h, attrs, |attrs|, depth);
    forall i | 0 <= i < |attrs| ensures Members(c, h, attrs, |attrs|, depth).0[i] == Kept(attrs[i]) {
      UnchangedIsKept(c, h, attrs[i], depth);
    }
  }

  /** Whether a group was rewritten or kept, its members are what was made of them. */
  lemma GroupIsItsMembers(c: Handler, h: Heap, a: Attr, depth: nat)
    requires depth < MAX_DEPTH && !Ruled(c, a.key) && Resolved(a.value).Some? && Resolved(a.value).value.Group?
    ensures var ms := Resolved(a.value).value.members;
      && Processed(c, h, a, depth).1 == Members(c, h, ms, |ms|, depth + 1).1
      && Seen(h, Processed(c, h, a, depth).0, depth)
         == (a.key, Grouped(SeenAll(h, Members(c, h, ms, |ms|, depth + 1).0, depth + 1)))
  {
    var ms := Resolved(a.value).value.members;
    var outs := Members(c, h, ms, |ms|, depth + 1).0;
    if Processed(c, h, a, depth).1 {
      assert Seen(h, MadeGroup(a.key, outs), depth).1.members == SeenAll(h, outs, depth + 1);
    } else {
      UnchangedAreKept(c, h, ms, depth + 1);
      assert ViewValue(h, a.value, depth).members == SeenAll(h, Keep(ms), depth + 1);
    }
  }

  lemma {:induction false} SameMembers(c: Handler, h: Heap, attrs: seq<Attr>, g: Heap, others: seq<Attr>, depth: nat)
    requires AlikeAttrs(c, h, attrs, g, others, depth)
    ensures Members(c, h, attrs, |attrs|, depth).1 == Members(c, g, others, |others|, depth).1
    ensures SeenAll(h, Members(c, h, attrs, |attrs|, depth).0, depth)
         == SeenAll(g, Members(c, g, others, |others|, depth).0, depth)
    decreases Left(depth), 1
  {
    MembersChange(c, h, attrs, |attrs|, depth);
    MembersChange(c, g, others, |others|, depth);
    forall i | 0 <= i < |attrs|
      ensures Processed(c, h, attrs[i], depth).1 == Processed(c, g, others[i], depth).1
      ensures Seen(h, Processed(c, h, attrs[i], depth).0, depth) == Seen(g, Processed(c, g, others[i], depth).0, depth)
    {
      SameProcessed(c, h, attrs[i], g, others[i], depth);
    }
  }

  /** What Handle passes on is what was made of each attribute, changed or not. */
  lemma HandledIsMembers(c: Handler, h: Heap, attrs: seq<Attr>)
    ensures Handled(c, h, attrs) == Members(c, h, attrs, |attrs|, 0).0
  {
    if !Members(c, h, attrs, |attrs|, 0).1 {
      UnchangedAreKept(c, h, attrs, 0);
    }
  }

  /** Non-interference: two records that differ only in the values of redacted keys, or
      in what the masks of masked keys hide, at any nesting and through any pointers,
      leave the handler looking exactly the same. */
  lemma RecordsLookTheSame(c: Handler, h: Heap, attrs: seq<Attr>, g: Heap, others: seq<Attr>)
    requires AlikeAttrs(c, h, attrs, g, others, 0)
    ensures SeenAll(h, Handled(c, h, attrs), 0) == SeenAll(g, Handled(c, g, others), 0)
  {
    SameMembers(c, h, attrs, g, others, 0);
    HandledIsMembers(c, h, attrs);
    HandledIsMembers(c, g, others);
  }
}
