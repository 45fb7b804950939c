/**
 * Bounded, redacted copies of arbitrary object graphs for diagnostics. Objects live in a heap and
 * may be shared and cyclic; the patterns that recognise keys and scrub text are parameters.
 */
module Redaction {
  import opened Wrappers

  const MAX_DEPTH: nat := 8
  const MAX_OBJECT_KEYS: nat := 64
  const MAX_ARRAY_ITEMS: nat := 64
  const REDACTED: string := "[REDACTED]"
  const TRUNCATED: string := "[TRUNCATED]"
  const TRUNCATED_KEY: string := "_truncated"
  const UNEXPECTED_ERROR: string := "Unexpected error"

  type Ref = nat

  /** Numbers, booleans, null and undefined are passed through unchanged. */
  datatype Scalar = Numeric(text: string) | Boolean(b: bool) | Null | Undefined

  datatype Value =
    | Text(s: string)
    | Plain(scalar: Scalar)
    | BigInt(digits: string)
    | SymbolOrFunction
    | Date(iso: Option<string>)
    | Reference(ref: Ref)

  datatype Property = Data(value: Value) | Accessor

  datatype Entry = Entry(key: string, property: Property)

  /** An error's name, or None when it is not a string; its message as text, or None when that throws. */
  datatype Node =
    | ErrorNode(name: Option<string>, message: Option<string>, cause: Value)
    | ArrayNode(items: seq<Value>)
    | ObjectNode(entries: seq<Entry>)

  type Heap = map<Ref, Node>

  datatype Policy = Policy(
    sensitive: string -> bool, blocked: string -> bool, urlKey: string -> bool,
    scrub: string -> string, scrubUrl: string -> Option<string>)
  {
    predicate Hides(key: string) {
      sensitive(key) || blocked(key)
    }
  }

  datatype Out =
    | TextOut(s: string)
    | PlainOut(scalar: Scalar)
    | RedactedOut
    | TruncatedOut
    | CircularOut
    | DepthLimitOut
    | ErrorOut(name: string, message: string, cause: Option<Out>)
    | ArrayOut(items: seq<Out>)
    | ObjectOut(fields: map<string, Out>)

  function Remaining(depth: nat): nat {
    if depth > MAX_DEPTH then 0 else MAX_DEPTH + 1 - depth
  }

  function PropertyValue(property: Property): Value {
    match property
    case Data(value) => value
    case Accessor => Text(REDACTED)
  }

  /** The entries that are looked at: the first ones, without running accessors, and a marker. */
  function OwnEntries(entries: seq<Entry>): (r: seq<(string, Value)>)
    ensures |r| <= MAX_OBJECT_KEYS + 1
  {
    var n := if |entries| > MAX_OBJECT_KEYS then MAX_OBJECT_KEYS else |entries|;
    seq(n, i requires 0 <= i < n => (entries[i].key, PropertyValue(entries[i].property)))
    + (if |entries| > MAX_OBJECT_KEYS then [(TRUNCATED_KEY, Text(TRUNCATED))] else [])
  }

  function ScrubbedUrl(p: Policy, value: Value): Out {
    if value.Text? && p.scrubUrl(value.s).Some? then TextOut(p.scrubUrl(value.s).value) else RedactedOut
  }

  function ErrorMessage(p: Policy, message: Option<string>): string {
    match message
    case Some(text) => p.scrub(text)
    case None => UNEXPECTED_ERROR
  }

  /**
   * The redacted copy of a value met at a depth, below the containers in seen; None when the walk
   * throws.
   */
  function Walk(p: Policy, h: Heap, node: Value, depth: nat, seen: set<Ref>): Option<Out>
    decreases Remaining(depth), 0, 0
  {
    if depth > MAX_DEPTH then Some(DepthLimitOut)
    else match node
      case Text(s) => Some(TextOut(p.scrub(s)))
      case Plain(scalar) => Some(PlainOut(scalar))
      case BigInt(digits) => Some(TextOut(digits))
      case SymbolOrFunction => Some(RedactedOut)
      case Date(iso) => Some(if iso.Some? then TextOut(iso.value) else RedactedOut)
      case Reference(r) =>
        if r !in h then Some(RedactedOut)
        else match h[r]
          case ErrorNode(name, message, cause) => WalkError(p, h, h[r], depth, seen)
          case ArrayNode(items) =>
            if r in seen then Some(CircularOut)
            else
              var shown := if |items| > MAX_ARRAY_ITEMS then items[..MAX_ARRAY_ITEMS] else items;
              var copies := WalkItems(p, h, shown, depth + 1, seen + {r});
              if copies.None? then None
              else Some(ArrayOut(copies.value + if |items| > MAX_ARRAY_ITEMS then [TruncatedOut] else []))
          case ObjectNode(entries) =>
            if r in seen then Some(CircularOut)
            else
              var fields := WalkEntries(p, h, OwnEntries(entries), depth + 1, seen + {r});
              if fields.None? then None else Some(ObjectOut(fields.value))
  }

  function WalkError(p: Policy, h: Heap, node: Node, depth: nat, seen: set<Ref>): Option<Out>
    requires node.ErrorNode? && depth <= MAX_DEPTH
    decreases Remaining(depth + 1), 2, 0
  {
    if node.name.None? then None
    else
      var name, message := p.scrub(node.name.value), ErrorMessage(p, node.message);
      if node.cause == Plain(Undefined) then Some(ErrorOut(name, message, None))
      else
        var cause := Walk(p, h, node.cause, depth + 1, seen);
        if cause.None? then None else Some(ErrorOut(name, message, cause))
  }

  function WalkItems(p: Policy, h: Heap, items: seq<Value>, depth: nat, seen: set<Ref>): (r: Option<seq<Out>>)
    ensures r.Some? ==> |r.value| == |items|
    decreases Remaining(depth), 1, |items|
  {
    if items == [] then Some([])
    else
      var n := |items| - 1;
      var front := WalkItems(p, h, items[..n], depth, seen);
      if front.None? then None
      else
        var last := Walk(p, h, items[n], depth, seen);
        if last.None? then None else Some(front.value + [last.value])
  }

  /** The copy of one entry's value. */
  function WalkEntry(p: Policy, h: Heap, key: string, value: Value, depth: nat, seen: set<Ref>): Option<Out>
    decreases Remaining(depth), 1, 0
  {
    if p.Hides(key) then Some(RedactedOut)
    else if p.urlKey(key) then Some(ScrubbedUrl(p, value))
    else Walk(p, h, value, depth, seen)
  }

  function WalkEntries(p: Policy, h: Heap, entries: seq<(string, Value)>, depth: nat, seen: set<Ref>)
    : Option<map<string, Out>>
    decreases Remaining(depth), 1, |entries| + 1
  {
    if entries == [] then Some(map[])
    else
      var n := |entries| - 1;
      var front := WalkEntries(p, h, entries[..n], depth, seen);
      if front.None? then None
      else
        var last := WalkEntry(p, h, entries[n].0, entries[n].1, depth, seen);
        if last.None? then None else Some(front.value[entries[n].0 := last.value])
  }

  /** A whole value: undefined counts as null, and a walk that throws gives the redaction mark. */
  function Redact(p: Policy, h: Heap, value: Value): Out {
    var out := Walk(p, h, if value == Plain(Undefined) then Plain(Null) else value, 0, {});
    if out.Some? then out.value else RedactedOut
  }

  /** The walk that keeps the containers on its path in one mutable set. */
  class Walker {
    var seen: set<Ref>

    constructor ()
      ensures seen == {}
    {
      seen := {};
    }

    method ReadOwnEntries(entries: seq<Entry>) returns (r: seq<(string, Value)>)
      ensures r == OwnEntries(entries)
      ensures |r| == if |entries| > 64 then 65 else |entries|
      ensures forall i :: 0 <= i < |entries| && i < 64 ==>
        r[i].0 == entries[i].key
        && r[i].1 == match entries[i].property case Data(value) => value case Accessor => Text("[REDACTED]")
      ensures |entries| > 64 ==> r[64] == ("_truncated", Text("[TRUNCATED]"))
    {
      r := [];
      var n := if |entries| > MAX_OBJECT_KEYS then MAX_OBJECT_KEYS else |entries|;
      for i := 0 to n
        invariant |r| == i
        invariant forall k :: 0 <= k < i ==> r[k] == (entries[k].key, PropertyValue(entries[k].property))
      {
        r := r + [(entries[i].key, PropertyValue(entries[i].property))];
      }
      if |entries| > MAX_OBJECT_KEYS {
        r := r + [(TRUNCATED_KEY, Text(TRUNCATED))];
      }
    }

    /** The set is back to what it was when the walk returns without throwing. */
    method WalkNode(p: Policy, h: Heap, node: Value, depth: nat) returns (r: Option<Out>)
      modifies this
      ensures r == Walk(p, h, node, depth, old(seen))
      ensures r.Some? ==> seen == old(seen)
      decreases Remaining(depth), 0, 0
    {
      if depth > MAX_DEPTH {
        return Some(DepthLimitOut);
      }
      match node {
        case Text(s) => return Some(TextOut(p.scrub(s)));
        case Plain(scalar) => return Some(PlainOut(scalar));
        case BigInt(digits) => return Some(TextOut(digits));
        case SymbolOrFunction => return Some(RedactedOut);
        case Date(iso) => return Some(if iso.Some? then TextOut(iso.value) else RedactedOut);
        case Reference(ref) =>
          if ref !in h {
            return Some(RedactedOut);
          }
          match h[ref] {
            case ErrorNode(name, message, cause) =>
              if name.None? {
                return None;
              }
              if cause == Plain(Undefined) {
                return Some(ErrorOut(p.scrub(name.value), ErrorMessage(p, message), None));
              }
              var copy := WalkNode(p, h, cause, depth + 1);
              if copy.None? {
                return None;
              }
              return Some(ErrorOut(p.scrub(name.value), ErrorMessage(p, message), copy));
            case ArrayNode(items) =>
              if ref in seen {
                return Some(CircularOut);
              }
              seen := seen + {ref};
              var shown := if |items| > MAX_ARRAY_ITEMS then items[..MAX_ARRAY_ITEMS] else items;
              var copies := MapItems(p, h, shown, depth + 1);
              if copies.None? {
                return None;
              }
              seen := seen - {ref};
              return Some(ArrayOut(copies.value + if |items| > MAX_ARRAY_ITEMS then [TruncatedOut] else []));
            case ObjectNode(entries) =>
              if ref in seen {
                return Some(CircularOut);
              }
              seen := seen + {ref};
              var own := ReadOwnEntries(entries);
              var fields := FillFields(p, h, own, depth + 1);
              if fields.None? {
                return None;
              }
              seen := seen - {ref};
              return Some(ObjectOut(fields.value));
          }
      }
    }

    method MapItems(p: Policy, h: Heap, items: seq<Value>, depth: nat) returns (r: Option<seq<Out>>)
      modifies this
      ensures r == WalkItems(p, h, items, depth, old(seen))
      ensures r.Some? ==> seen == old(seen)
      decreases Remaining(depth), 1, |items|
    {
      var copies: seq<Out> := [];
      for i := 0 to |items|
        invariant seen == old(seen)
        invariant WalkItems(p, h, items[..i], depth, old(seen)) == Some(copies)
      {
        var copy := WalkNode(p, h, items[i], depth);
        assert items[..i + 1][..i] == items[..i];
        if copy.None? {
          ThrowingPrefix(p, h, items, i + 1, depth, old(seen));
          return None;
        }
        copies := copies + [copy.value];
      }
      assert items[..|items|] == items;
      return Some(copies);
    }

    method FillFields(p: Policy, h: Heap, entries: seq<(string, Value)>, depth: nat)
      returns (r: Option<map<string, Out>>)
      modifies this
      ensures r == WalkEntries(p, h, entries, depth, old(seen))
      ensures r.Some? ==> seen == old(seen)
      decreases Remaining(depth), 1, |entries| + 1
    {
      var result: map<string, Out> := map[];
      for i := 0 to |entries|
        invariant seen == old(seen)
        invariant WalkEntries(p, h, entries[..i], depth, old(seen)) == Some(result)
      {
        var (key, value) := entries[i];
        var copy: Option<Out>;
        if p.Hides(key) {
          copy := Some(RedactedOut);
        } else if p.urlKey(key) {
          copy := Some(ScrubbedUrl(p, value));
        } else {
          copy := WalkNode(p, h, value, depth);
        }
        assert entries[..i + 1][..i] == entries[..i];
        if copy.None? {
          ThrowingEntries(p, h, entries, i + 1, depth, old(seen));
          return None;
        }
        result := result[key := copy.value];
      }
      assert entries[..|entries|] == entries;
      return Some(result);
    }
  }

  lemma {:induction false} ThrowingPrefix(
    p: Policy, h: Heap, items: seq<Value>, n: nat, depth: nat, seen: set<Ref>)
    requires n <= |items| && WalkItems(p, h, items[..n], depth, seen).None?
    ensures WalkItems(p, h, items, depth, seen).None?
    decreases |items|
  {
    if n < |items| {
      assert items[..|items| - 1][..n] == items[..n];
      ThrowingPrefix(p, h, items[..|items| - 1], n, depth, seen);
    } else {
      assert items[..n] == items;
    }
  }

  lemma {:induction false} ThrowingEntries(
    p: Policy, h: Heap, entries: seq<(string, Value)>, n: nat, depth: nat, seen: set<Ref>)
    requires n <= |entries| && WalkEntries(p, h, entries[..n], depth, seen).None?
    ensures WalkEntries(p, h, entries, depth, seen).None?
    decreases |entries|
  {
    if n < |entries| {
      assert entries[..|entries| - 1][..n] == entries[..n];
      ThrowingEntries(p, h, entries[..|entries| - 1], n, depth, seen);
    } else {
      assert entries[..n] == entries;
    }
  }
}
