/** What redacted copies reveal, how large they get, and where cycles are cut. */
module RedactionSafety {
  import opened Wrappers
  import opened Redaction

  // ---- Independence from hidden values ----

  function Shown<T>(s: seq<T>, limit: nat): seq<T> {
    if |s| > limit then s[..limit] else s
  }

  /** Entries that look the same where anything is looked at. */
  predicate EntryAlike(p: Policy, a: (string, Value), b: (string, Value)) {
    a.0 == b.0
    && (p.Hides(a.0) || (p.urlKey(a.0) && ScrubbedUrl(p, a.1) == ScrubbedUrl(p, b.1)) || a.1 == b.1)
  }

  predicate EntriesAlike(p: Policy, a: seq<(string, Value)>, b: seq<(string, Value)>) {
    |a| == |b| && forall i :: 0 <= i < |a| ==> EntryAlike(p, a[i], b[i])
  }

  /** Nodes that differ at most in hidden values, in what follows a URL's path, or past the limits. */
  predicate NodeAlike(p: Policy, a: Node, b: Node) {
    match a
    case ErrorNode(_, _, _) => a == b
    case ArrayNode(items) =>
      b.ArrayNode? && Shown(items, MAX_ARRAY_ITEMS) == Shown(b.items, MAX_ARRAY_ITEMS)
      && (|items| > MAX_ARRAY_ITEMS <==> |b.items| > MAX_ARRAY_ITEMS)
    case ObjectNode(entries) => b.ObjectNode? && EntriesAlike(p, OwnEntries(entries), OwnEntries(b.entries))
  }

  predicate Inside(v: Value, region: set<Ref>) {
    v.Reference? ==> v.ref in region
  }

  /** The objects a walk can get to from a node without passing a hidden key. */
  predicate VisibleInside(p: Policy, node: Node, region: set<Ref>) {
    match node
    case ErrorNode(_, _, cause) => Inside(cause, region)
    case ArrayNode(items) => forall v <- Shown(items, MAX_ARRAY_ITEMS) :: Inside(v, region)
    case ObjectNode(entries) =>
      forall e <- OwnEntries(entries) :: p.Hides(e.0) || p.urlKey(e.0) || Inside(e.1, region)
  }

  /** Two heaps that agree on a region closed under everything visible. */
  ghost predicate Agree(p: Policy, h: Heap, k: Heap, region: set<Ref>) {
    forall r <- region ::
      (r in h <==> r in k)
      && (r in h ==> NodeAlike(p, h[r], k[r]) && VisibleInside(p, h[r], region))
  }

  lemma {:induction false} WalkIndependent(
    p: Policy, h: Heap, k: Heap, region: set<Ref>, v: Value, depth: nat, seen: set<Ref>)
    requires Agree(p, h, k, region) && Inside(v, region)
    ensures Walk(p, h, v, depth, seen) == Walk(p, k, v, depth, seen)
    decreases Remaining(depth), 0, 0
  {
    if depth <= MAX_DEPTH && v.Reference? && v.ref in h {
      match h[v.ref] {
        case ErrorNode(_, _, cause) =>
          WalkIndependent(p, h, k, region, cause, depth + 1, seen);
        case ArrayNode(items) =>
          ItemsIndependent(p, h, k, region, Shown(items, MAX_ARRAY_ITEMS), depth + 1, seen + {v.ref});
        case ObjectNode(entries) =>
          EntriesIndependent(
            p, h, k, region, OwnEntries(entries), OwnEntries(k[v.ref].entries), depth + 1, seen + {v.ref});
      }
    }
  }

  lemma {:induction false} ItemsIndependent(
    p: Policy, h: Heap, k: Heap, region: set<Ref>, items: seq<Value>, depth: nat, seen: set<Ref>)
    requires Agree(p, h, k, region) && forall v <- items :: Inside(v, region)
    ensures WalkItems(p, h, items, depth, seen) == WalkItems(p, k, items, depth, seen)
    decreases Remaining(depth), 1, |items|
  {
    if items != [] {
      var n := |items| - 1;
      ItemsIndependent(p, h, k, region, items[..n], depth, seen);
      WalkIndependent(p, h, k, region, items[n], depth, seen);
    }
  }

  lemma {:induction false} EntriesIndependent(
    p: Policy, h: Heap, k: Heap, region: set<Ref>,
    a: seq<(string, Value)>, b: seq<(string, Value)>, depth: nat, seen: set<Ref>)
    requires Agree(p, h, k, region) && EntriesAlike(p, a, b)
    requires forall e <- a :: p.Hides(e.0) || p.urlKey(e.0) || Inside(e.1, region)
    ensures WalkEntries(p, h, a, depth, seen) == WalkEntries(p, k, b, depth, seen)
    decreases Remaining(depth), 1, |a| + 1
  {
    if a != [] {
      var n := |a| - 1;
      EntriesIndependent(p, h, k, region, a[..n], b[..n], depth, seen);
      assert EntryAlike(p, a[n], b[n]);
      if !p.Hides(a[n].0) && !p.urlKey(a[n].0) {
        assert a[n] in a;
        WalkIndependent(p, h, k, region, a[n].1, depth, seen);
      }
    }
  }

  /**
   * The copy does not depend on what is hidden: heaps that agree on everything visible from a
   * value give the same copy of it, whatever they share and whatever cycles they have.
   */
  lemma RedactIndependentOfHidden(p: Policy, h: Heap, k: Heap, region: set<Ref>, v: Value)
    requires Agree(p, h, k, region) && Inside(v, region)
    ensures Redact(p, h, v) == Redact(p, k, v)
  {
    if v != Plain(Undefined) {
      WalkIndependent(p, h, k, region, v, 0, {});
    }
  }

  // ---- Bounds ----

  /** Copies with at most this many levels and at most one marker more than the limits in width. */
  predicate Bounded(out: Out, levels: nat)
    decreases levels
  {
    match out
    case ErrorOut(_, _, cause) => levels > 0 && (cause.Some? ==> Bounded(cause.value, levels - 1))
    case ArrayOut(items) =>
      levels > 0 && |items| <= 65
      && forall i :: 0 <= i < |items| ==> Bounded(items[i], levels - 1)
    case ObjectOut(fields) =>
      levels > 0 && |fields| <= 65
      && forall key :: key in fields ==> Bounded(fields[key], levels - 1)
    case _ => true
  }

  lemma {:induction false} WalkBounded(p: Policy, h: Heap, v: Value, depth: nat, seen: set<Ref>)
    requires Walk(p, h, v, depth, seen).Some?
    ensures Bounded(Walk(p, h, v, depth, seen).value, Remaining(depth))
    decreases Remaining(depth), 0, 0
  {
    if depth <= MAX_DEPTH && v.Reference? && v.ref in h {
      match h[v.ref] {
        case ErrorNode(_, _, cause) =>
          if cause != Plain(Undefined) {
            WalkBounded(p, h, cause, depth + 1, seen);
          }
        case ArrayNode(items) =>
          if v.ref !in seen {
            ItemsBounded(p, h, Shown(items, MAX_ARRAY_ITEMS), depth + 1, seen + {v.ref});
          }
        case ObjectNode(entries) =>
          if v.ref !in seen {
            EntriesBounded(p, h, OwnEntries(entries), depth + 1, seen + {v.ref});
          }
      }
    }
  }

  lemma {:induction false} ItemsBounded(p: Policy, h: Heap, items: seq<Value>, depth: nat, seen: set<Ref>)
    requires WalkItems(p, h, items, depth, seen).Some?
    ensures forall out <- WalkItems(p, h, items, depth, seen).value :: Bounded(out, Remaining(depth))
    decreases Remaining(depth), 1, |items|
  {
    if items != [] {
      var n := |items| - 1;
      ItemsBounded(p, h, items[..n], depth, seen);
      WalkBounded(p, h, items[n], depth, seen);
    }
  }

  lemma {:induction false} EntriesBounded(
    p: Policy, h: Heap, entries: seq<(string, Value)>, depth: nat, seen: set<Ref>)
    requires WalkEntries(p, h, entries, depth, seen).Some?
    ensures var fields := WalkEntries(p, h, entries, depth, seen).value;
      |fields| <= |entries| && forall key <- fields :: Bounded(fields[key], Remaining(depth))
    decreases Remaining(depth), 1, |entries| + 1
  {
    if entries != [] {
      var n := |entries| - 1;
      EntriesBounded(p, h, entries[..n], depth, seen);
      var (key, value) := entries[n];
      if !p.Hides(key) && !p.urlKey(key) {
        WalkBounded(p, h, value, depth, seen);
      }
      UpdateSize(WalkEntries(p, h, entries[..n], depth, seen).value, key,
                 WalkEntry(p, h, key, value, depth, seen).value);
    }
  }

  lemma UpdateSize<V>(m: map<string, V>, key: string, v: V)
    ensures |m[key := v]| <= |m| + 1
  {
    assert m[key := v].Keys == m.Keys + {key};
  }

  /** Every copy has at most nine levels below its root, and bounded width on each. */
  lemma RedactBounded(p: Policy, h: Heap, v: Value)
    ensures Bounded(Redact(p, h, v), 9)
  {
    var value := if v == Plain(Undefined) then Plain(Null) else v;
    if Walk(p, h, value, 0, {}).Some? {
      WalkBounded(p, h, value, 0, {});
    }
  }

  // ---- Where cycles are cut ----

  /** One step into a value, and into its copy. */
  datatype Step = Item(index: nat) | Field(key: string) | Cause

  function LastWith(entries: seq<(string, Value)>, key: string): Option<Value> {
    if entries == [] then None
    else
      var n := |entries| - 1;
      if entries[n].0 == key then Some(entries[n].1) else LastWith(entries[..n], key)
  }

  /** The value one visible step leads to. */
  function StepInto(p: Policy, h: Heap, v: Value, step: Step): Option<Value> {
    if !v.Reference? || v.ref !in h then None
    else match h[v.ref]
      case ErrorNode(_, _, cause) => if step.Cause? && cause != Plain(Undefined) then Some(cause) else None
      case ArrayNode(items) =>
        if step.Item? && step.index < |Shown(items, MAX_ARRAY_ITEMS)| then Some(items[step.index]) else None
      case ObjectNode(entries) =>
        if step.Field? && !p.Hides(step.key) && !p.urlKey(step.key) then
          LastWith(OwnEntries(entries), step.key)
        else None
  }

  function StepInOut(out: Out, step: Step): Option<Out> {
    match out
    case ErrorOut(_, _, cause) => if step.Cause? then cause else None
    case ArrayOut(items) => if step.Item? && step.index < |items| then Some(items[step.index]) else None
    case ObjectOut(fields) => if step.Field? && step.key in fields then Some(fields[step.key]) else None
    case _ => None
  }

  /** Arrays and objects are containers; errors are not. */
  predicate Container(h: Heap, v: Value) {
    v.Reference? && v.ref in h && !h[v.ref].ErrorNode?
  }

  function Passed(h: Heap, v: Value, seen: set<Ref>): set<Ref> {
    if Container(h, v) then seen + {v.ref} else seen
  }

  lemma {:induction false} ItemCopied(
    p: Policy, h: Heap, items: seq<Value>, i: nat, depth: nat, seen: set<Ref>)
    requires WalkItems(p, h, items, depth, seen).Some? && i < |items|
    ensures Walk(p, h, items[i], depth, seen) == Some(WalkItems(p, h, items, depth, seen).value[i])
    decreases |items|
  {
    var n := |items| - 1;
    if i < n {
      ItemCopied(p, h, items[..n], i, depth, seen);
    }
  }

  lemma {:induction false} FieldCopied(
    p: Policy, h: Heap, entries: seq<(string, Value)>, key: string, depth: nat, seen: set<Ref>)
    requires WalkEntries(p, h, entries, depth, seen).Some? && LastWith(entries, key).Some?
    ensures var fields := WalkEntries(p, h, entries, depth, seen).value;
      key in fields
      && WalkEntry(p, h, key, LastWith(entries, key).value, depth, seen) == Some(fields[key])
    decreases |entries|
  {
    var n := |entries| - 1;
    if entries[n].0 != key {
      FieldCopied(p, h, entries[..n], key, depth, seen);
    }
  }

  /** The copy of what one step leads to is found one step into the copy. */
  lemma StepCopied(p: Policy, h: Heap, v: Value, depth: nat, seen: set<Ref>, step: Step)
    requires depth <= MAX_DEPTH && StepInto(p, h, v, step).Some?
    requires Container(h, v) ==> v.ref !in seen
    requires Walk(p, h, v, depth, seen).Some?
    ensures Walk(p, h, StepInto(p, h, v, step).value, depth + 1, Passed(h, v, seen)).Some?
    ensures StepInOut(Walk(p, h, v, depth, seen).value, step)
         == Walk(p, h, StepInto(p, h, v, step).value, depth + 1, Passed(h, v, seen))
  {
    match h[v.ref] {
      case ErrorNode(_, _, _) =>
      case ArrayNode(items) =>
        ItemCopied(p, h, Shown(items, MAX_ARRAY_ITEMS), step.index, depth + 1, seen + {v.ref});
      case ObjectNode(entries) =>
        FieldCopied(p, h, OwnEntries(entries), step.key, depth + 1, seen + {v.ref});
    }
  }

  /** The value a path leads to, and the containers it goes through before its end. */
  function Follow(p: Policy, h: Heap, v: Value, path: seq<Step>): Option<Value>
    decreases |path|
  {
    if path == [] then Some(v)
    else
      match StepInto(p, h, v, path[0])
      case None => None
      case Some(w) => Follow(p, h, w, path[1..])
  }

  function Ancestors(p: Policy, h: Heap, v: Value, path: seq<Step>): seq<Ref>
    requires Follow(p, h, v, path).Some?
    decreases |path|
  {
    if path == [] then []
    else (if Container(h, v) then [v.ref] else [])
         + Ancestors(p, h, StepInto(p, h, v, path[0]).value, path[1..])
  }

  predicate Distinct(refs: seq<Ref>) {
    forall i, j :: 0 <= i < j < |refs| ==> refs[i] != refs[j]
  }

  function FollowOut(out: Out, path: seq<Step>): Option<Out>
    decreases |path|
  {
    if path == [] then Some(out)
    else
      match StepInOut(out, path[0])
      case None => None
      case Some(next) => FollowOut(next, path[1..])
  }

  lemma DistinctTail(refs: seq<Ref>)
    requires refs != [] && Distinct(refs)
    ensures Distinct(refs[1..]) && refs[0] !in refs[1..]
  {
    forall i, j | 0 <= i < j < |refs[1..]|
      ensures refs[1..][i] != refs[1..][j]
    {
      assert refs[i + 1] != refs[j + 1];
    }
  }

  /** Along a path that meets no container twice, the copy is walked in step with the value. */
  lemma {:induction false} PathCopied(
    p: Policy, h: Heap, v: Value, depth: nat, seen: set<Ref>, path: seq<Step>)
    requires depth + |path| <= MAX_DEPTH + 1
    requires Follow(p, h, v, path).Some? && Walk(p, h, v, depth, seen).Some?
    requires var refs := Ancestors(p, h, v, path); Distinct(refs) && forall r <- refs :: r !in seen
    ensures var end := Walk(
        p, h, Follow(p, h, v, path).value, depth + |path|,
        seen + set r <- Ancestors(p, h, v, path));
      end.Some? && FollowOut(Walk(p, h, v, depth, seen).value, path) == end
    decreases |path|
  {
    hide Walk, StepInto, StepInOut;
    var refs := Ancestors(p, h, v, path);
    if path == [] {
      assert seen + (set r <- refs) == seen;
    } else {
      var w := StepInto(p, h, v, path[0]).value;
      var rest := Ancestors(p, h, w, path[1..]);
      SplitAncestors(h, v, seen, refs, rest);
      StepCopied(p, h, v, depth, seen, path[0]);
      PathCopied(p, h, w, depth + 1, Passed(h, v, seen), path[1..]);
    }
  }

  lemma SplitAncestors(h: Heap, v: Value, seen: set<Ref>, refs: seq<Ref>, rest: seq<Ref>)
    requires refs == (if Container(h, v) then [v.ref] else []) + rest
    requires Distinct(refs) && forall r <- refs :: r !in seen
    ensures Distinct(rest) && forall r <- rest :: r !in Passed(h, v, seen)
    ensures Container(h, v) ==> v.ref !in seen
    ensures Passed(h, v, seen) + (set r <- rest) == seen + set r <- refs
  {
    if Container(h, v) {
      assert refs[0] == v.ref;
      assert refs[1..] == rest;
      DistinctTail(refs);
    } else {
      assert refs == rest;
    }
  }

  /**
   * A cycle is cut exactly where a container comes up again on its own path: along any visible
   * path within the depth limit the copy is marked circular if and only if the path ends in a
   * container it went through before. Containers shared by several paths are copied each time.
   */
  lemma CircularExactly(p: Policy, h: Heap, v: Value, path: seq<Step>)
    requires v != Plain(Undefined) && |path| <= MAX_DEPTH
    requires Follow(p, h, v, path).Some? && Walk(p, h, v, 0, {}).Some?
    requires Distinct(Ancestors(p, h, v, path))
    ensures FollowOut(Redact(p, h, v), path).Some?
    ensures var end := Follow(p, h, v, path).value;
      FollowOut(Redact(p, h, v), path) == Some(CircularOut)
      <==> Container(h, end) && end.ref in Ancestors(p, h, v, path)
  {
    PathCopied(p, h, v, 0, {}, path);
  }
}
