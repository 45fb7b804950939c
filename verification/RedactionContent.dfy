/** What a redacted copy says: every text in it was scrubbed, and every leaf stands where it belongs. */
module RedactionContent {
  import opened Wrappers
  import opened Redaction
  import opened RedactionSafety

  // ---- Texts ----

  /** Every text in a copy, at any level, error names and messages included. */
  ghost predicate AllTexts(out: Out, clean: string -> bool) {
    match out
    case TextOut(s) => clean(s)
    case ErrorOut(name, message, cause) =>
      clean(name) && clean(message) && (cause.Some? ==> AllTexts(cause.value, clean))
    case ArrayOut(items) => forall i :: 0 <= i < |items| ==> AllTexts(items[i], clean)
    case ObjectOut(fields) => forall key :: key in fields ==> AllTexts(fields[key], clean)
    case _ => true
  }

  /** A value whose text is copied as it is: the digits of a big integer, the text of a date. */
  predicate VerbatimClean(v: Value, clean: string -> bool) {
    match v
    case BigInt(digits) => clean(digits)
    case Date(iso) => iso.Some? ==> clean(iso.value)
    case _ => true
  }

  predicate NodeClean(node: Node, clean: string -> bool) {
    match node
    case ErrorNode(_, _, cause) => VerbatimClean(cause, clean)
    case ArrayNode(items) => forall v <- items :: VerbatimClean(v, clean)
    case ObjectNode(entries) => forall e <- entries :: e.property.Data? ==> VerbatimClean(e.property.value, clean)
  }

  /** All that scrubbing gives is clean, and so is what is not scrubbed. */
  ghost predicate Scrubs(p: Policy, h: Heap, clean: string -> bool) {
    && (forall s :: clean(p.scrub(s)))
    && (forall s :: p.scrubUrl(s).Some? ==> clean(p.scrubUrl(s).value))
    && clean("Unexpected error")
    && (forall r <- h :: NodeClean(h[r], clean))
  }

  lemma OwnEntriesClean(entries: seq<Entry>, clean: string -> bool)
    requires NodeClean(ObjectNode(entries), clean)
    ensures forall e <- OwnEntries(entries) :: VerbatimClean(e.1, clean)
  {
    forall e <- OwnEntries(entries)
      ensures VerbatimClean(e.1, clean)
    {
      var i :| 0 <= i < |OwnEntries(entries)| && OwnEntries(entries)[i] == e;
      if i < |entries| && i < MAX_OBJECT_KEYS {
        assert entries[i] in entries;
      }
    }
  }

  lemma {:induction false} WalkClean(p: Policy, h: Heap, v: Value, depth: nat, seen: set<Ref>, clean: string -> bool)
    requires Scrubs(p, h, clean) && VerbatimClean(v, clean) && Walk(p, h, v, depth, seen).Some?
    ensures AllTexts(Walk(p, h, v, depth, seen).value, clean)
    decreases Remaining(depth), 0, 0
  {
    if depth <= MAX_DEPTH && v.Reference? && v.ref in h {
      assert NodeClean(h[v.ref], clean);
      match h[v.ref] {
        case ErrorNode(_, _, cause) =>
          if cause != Plain(Undefined) {
            WalkClean(p, h, cause, depth + 1, seen, clean);
          }
        case ArrayNode(items) =>
          if v.ref !in seen {
            ItemsClean(p, h, Shown(items, MAX_ARRAY_ITEMS), depth + 1, seen + {v.ref}, clean);
          }
        case ObjectNode(entries) =>
          if v.ref !in seen {
            OwnEntriesClean(entries, clean);
            EntriesClean(p, h, OwnEntries(entries), depth + 1, seen + {v.ref}, clean);
          }
      }
    }
  }

  lemma {:induction false} ItemsClean(
    p: Policy, h: Heap, items: seq<Value>, depth: nat, seen: set<Ref>, clean: string -> bool)
    requires Scrubs(p, h, clean) && (forall v <- items :: VerbatimClean(v, clean))
    requires WalkItems(p, h, items, depth, seen).Some?
    ensures forall out <- WalkItems(p, h, items, depth, seen).value :: AllTexts(out, clean)
    decreases Remaining(depth), 1, |items|
  {
    if items != [] {
      var n := |items| - 1;
      ItemsClean(p, h, items[..n], depth, seen, clean);
      WalkClean(p, h, items[n], depth, seen, clean);
    }
  }

  lemma {:induction false} EntriesClean(
    p: Policy, h: Heap, entries: seq<(string, Value)>, depth: nat, seen: set<Ref>, clean: string -> bool)
    requires Scrubs(p, h, clean) && (forall e <- entries :: VerbatimClean(e.1, clean))
    requires WalkEntries(p, h, entries, depth, seen).Some?
    ensures var fields := WalkEntries(p, h, entries, depth, seen).value;
      forall key <- fields :: AllTexts(fields[key], clean)
    decreases Remaining(depth), 1, |entries| + 1
  {
    if entries != [] {
      var n := |entries| - 1;
      EntriesClean(p, h, entries[..n], depth, seen, clean);
      var (key, value) := entries[n];
      assert entries[n] in entries;
      if !p.Hides(key) && !p.urlKey(key) {
        WalkClean(p, h, value, depth, seen, clean);
      }
      assert AllTexts(WalkEntry(p, h, key, value, depth, seen).value, clean);
    }
  }

  /**
   * Every text in a copy was scrubbed: whatever holds of all that scrubbing gives, and of the
   * texts that are digits or dates, holds of every text in the copy, error names and messages too.
   */
  lemma RedactIsScrubbed(p: Policy, h: Heap, v: Value, clean: string -> bool)
    requires Scrubs(p, h, clean) && VerbatimClean(v, clean)
    ensures AllTexts(Redact(p, h, v), clean)
  {
    var value := if v == Plain(Undefined) then Plain(Null) else v;
    if Walk(p, h, value, 0, {}).Some? {
      WalkClean(p, h, value, 0, {}, clean);
    }
  }

  // ---- What stands at the end of a path ----

  /** A path that goes through no container twice, to something the walk gets to. */
  ghost predicate OpenPath(p: Policy, h: Heap, v: Value, path: seq<Step>) {
    v != Plain(Undefined) && Walk(p, h, v, 0, {}).Some?
    && Follow(p, h, v, path).Some? && Distinct(Ancestors(p, h, v, path))
  }

  /** The copy of what is not a container, and not an error, within the depth limit. */
  function LeafOut(p: Policy, v: Value): Out {
    match v
    case Text(s) => TextOut(p.scrub(s))
    case Plain(scalar) => PlainOut(scalar)
    case BigInt(digits) => TextOut(digits)
    case Date(Some(iso)) => TextOut(iso)
    case _ => RedactedOut
  }

  /** At the end of every visible path of up to eight steps stands the copy of what is there. */
  lemma LeafCopied(p: Policy, h: Heap, v: Value, path: seq<Step>)
    requires OpenPath(p, h, v, path) && |path| <= 8
    ensures var end, out := Follow(p, h, v, path).value, FollowOut(Redact(p, h, v), path);
      if !(end.Reference? && end.ref in h) then out == Some(LeafOut(p, end))
      else if h[end.ref].ErrorNode? then
        out.Some? && out.value.ErrorOut? && h[end.ref].name.Some?
        && out.value.name == p.scrub(h[end.ref].name.value)
        && (if h[end.ref].message.Some? then out.value.message == p.scrub(h[end.ref].message.value)
            else out.value.message == "Unexpected error")
        && (out.value.cause.Some? <==> h[end.ref].cause != Plain(Undefined))
      else true
  {
    PathCopied(p, h, v, 0, {}, path);
  }

  lemma LimitMark(p: Policy, h: Heap, v: Value, depth: nat, seen: set<Ref>)
    requires Walk(p, h, v, depth, seen).Some?
    ensures Walk(p, h, v, depth, seen) == Some(DepthLimitOut) <==> depth > 8
  {
    hide WalkItems, WalkEntries;
  }

  /** One step further than the limit of eight stands the mark of the limit, and nowhere before. */
  lemma DepthLimitExactly(p: Policy, h: Heap, v: Value, path: seq<Step>)
    requires OpenPath(p, h, v, path) && |path| <= 9
    ensures FollowOut(Redact(p, h, v), path) == Some(DepthLimitOut) <==> |path| == 9
  {
    hide Walk, Follow, FollowOut, Ancestors;
    PathCopied(p, h, v, 0, {}, path);
    LimitMark(p, h, Follow(p, h, v, path).value, |path|, {} + set r <- Ancestors(p, h, v, path));
  }

  /** The copy of an array has its first 64 items, and a mark behind them exactly when there are more. */
  lemma ArrayCopied(p: Policy, h: Heap, v: Value, path: seq<Step>)
    requires OpenPath(p, h, v, path) && |path| <= 8
    requires var end := Follow(p, h, v, path).value;
      end.Reference? && end.ref in h && h[end.ref].ArrayNode? && end.ref !in Ancestors(p, h, v, path)
    ensures var items, out := h[Follow(p, h, v, path).value.ref].items, FollowOut(Redact(p, h, v), path);
      out.Some? && out.value.ArrayOut?
      && |out.value.items| == (if |items| > 64 then 65 else |items|)
      && (|items| > 64 ==> out.value.items[64] == TruncatedOut)
  {
    PathCopied(p, h, v, 0, {}, path);
  }

  lemma {:induction false} KeysCopied(
    p: Policy, h: Heap, entries: seq<(string, Value)>, depth: nat, seen: set<Ref>)
    requires WalkEntries(p, h, entries, depth, seen).Some?
    ensures var fields := WalkEntries(p, h, entries, depth, seen).value;
      forall key :: key in fields <==> exists i :: 0 <= i < |entries| && entries[i].0 == key
    decreases |entries|
  {
    if entries != [] {
      var n := |entries| - 1;
      KeysCopied(p, h, entries[..n], depth, seen);
      var front := WalkEntries(p, h, entries[..n], depth, seen).value;
      forall key
        ensures key in front || key == entries[n].0 <==> exists i :: 0 <= i < |entries| && entries[i].0 == key
      {
        if key in front {
          var i :| 0 <= i < n && entries[..n][i].0 == key;
          assert entries[i].0 == key;
        } else if key == entries[n].0 {
          assert entries[n].0 == key;
        } else if exists i :: 0 <= i < |entries| && entries[i].0 == key {
          var i :| 0 <= i < |entries| && entries[i].0 == key;
          assert entries[..n][i].0 == key;
        }
      }
    }
  }

  /** The keys that are looked at. */
  ghost predicate ShownKey(entries: seq<Entry>, key: string) {
    (exists i :: 0 <= i < |entries| && i < 64 && entries[i].key == key)
    || (|entries| > 64 && key == "_truncated")
  }

  lemma OwnKeys(entries: seq<Entry>, key: string)
    ensures ShownKey(entries, key) <==> exists i :: 0 <= i < |OwnEntries(entries)| && OwnEntries(entries)[i].0 == key
  {
    var own := OwnEntries(entries);
    assert forall i :: 0 <= i < |entries| && i < 64 ==> own[i].0 == entries[i].key;
    assert |entries| > 64 ==> own[64].0 == "_truncated";
    assert |own| == if |entries| > 64 then 65 else |entries|;
    if exists i :: 0 <= i < |own| && own[i].0 == key {
      var i :| 0 <= i < |own| && own[i].0 == key;
      assert i < 64 ==> entries[i].key == key;
    }
  }

  /** The copy of an object on an open path, field by field. */
  lemma FieldsAt(p: Policy, h: Heap, v: Value, path: seq<Step>) returns (seen: set<Ref>)
    requires OpenPath(p, h, v, path) && |path| <= 8
    requires var end := Follow(p, h, v, path).value;
      end.Reference? && end.ref in h && h[end.ref].ObjectNode? && end.ref !in Ancestors(p, h, v, path)
    ensures var own := OwnEntries(h[Follow(p, h, v, path).value.ref].entries);
      var fields := WalkEntries(p, h, own, |path| + 1, seen);
      fields.Some? && FollowOut(Redact(p, h, v), path) == Some(ObjectOut(fields.value))
  {
    hide Follow, FollowOut, Ancestors, WalkEntries;
    PathCopied(p, h, v, 0, {}, path);
    var end := Follow(p, h, v, path).value;
    seen := ({} + set r <- Ancestors(p, h, v, path)) + {end.ref};
  }

  /**
   * The copy of an object has exactly the first 64 keys, and a mark exactly when there are more. A
   * field under a key that hides is the redaction mark, one under a URL key is the scrubbed URL or
   * the mark.
   */
  lemma ObjectCopied(p: Policy, h: Heap, v: Value, path: seq<Step>, key: string)
    requires OpenPath(p, h, v, path) && |path| <= 8
    requires var end := Follow(p, h, v, path).value;
      end.Reference? && end.ref in h && h[end.ref].ObjectNode? && end.ref !in Ancestors(p, h, v, path)
    ensures var entries, out := h[Follow(p, h, v, path).value.ref].entries, FollowOut(Redact(p, h, v), path);
      out.Some? && out.value.ObjectOut? && (key in out.value.fields <==> ShownKey(entries, key))
    ensures var entries, out := h[Follow(p, h, v, path).value.ref].entries, FollowOut(Redact(p, h, v), path);
      ShownKey(entries, key) && (p.sensitive(key) || p.blocked(key)) ==> out.value.fields[key] == RedactedOut
    ensures var entries, out := h[Follow(p, h, v, path).value.ref].entries, FollowOut(Redact(p, h, v), path);
      ShownKey(entries, key) && !p.sensitive(key) && !p.blocked(key) && p.urlKey(key) ==>
        LastWith(OwnEntries(entries), key).Some?
        && out.value.fields[key] == match LastWith(OwnEntries(entries), key).value
             case Text(url) =>
               (match p.scrubUrl(url) case Some(scrubbed) => TextOut(scrubbed) case None => RedactedOut)
             case _ => RedactedOut
  {
    var entries := h[Follow(p, h, v, path).value.ref].entries;
    var seen := FieldsAt(p, h, v, path);
    hide Walk, WalkEntries, Follow, FollowOut, Ancestors, Redact;
    var own := OwnEntries(entries);
    KeysCopied(p, h, own, |path| + 1, seen);
    OwnKeys(entries, key);
    if ShownKey(entries, key) {
      KeyHasLast(own, key);
      FieldCopied(p, h, own, key, |path| + 1, seen);
    }
  }

  lemma {:induction false} KeyHasLast(entries: seq<(string, Value)>, key: string)
    requires exists i :: 0 <= i < |entries| && entries[i].0 == key
    ensures LastWith(entries, key).Some?
  {
    var i :| 0 <= i < |entries| && entries[i].0 == key;
    var n := |entries| - 1;
    if entries[n].0 != key {
      assert entries[..n][i].0 == key;
      KeyHasLast(entries[..n], key);
    }
  }

  // ---- When a walk throws ----

  lemma {:induction false} WalkReturns(p: Policy, h: Heap, v: Value, depth: nat, seen: set<Ref>)
    requires forall r <- h :: h[r].ErrorNode? ==> h[r].name.Some?
    ensures Walk(p, h, v, depth, seen).Some?
    decreases Remaining(depth), 0, 0
  {
    if depth <= MAX_DEPTH && v.Reference? && v.ref in h {
      match h[v.ref] {
        case ErrorNode(_, _, cause) =>
          if cause != Plain(Undefined) {
            WalkReturns(p, h, cause, depth + 1, seen);
          }
        case ArrayNode(items) =>
          if v.ref !in seen {
            ItemsReturn(p, h, Shown(items, MAX_ARRAY_ITEMS), depth + 1, seen + {v.ref});
          }
        case ObjectNode(entries) =>
          if v.ref !in seen {
            EntriesReturn(p, h, OwnEntries(entries), depth + 1, seen + {v.ref});
          }
      }
    }
  }

  lemma {:induction false} ItemsReturn(p: Policy, h: Heap, items: seq<Value>, depth: nat, seen: set<Ref>)
    requires forall r <- h :: h[r].ErrorNode? ==> h[r].name.Some?
    ensures WalkItems(p, h, items, depth, seen).Some?
    decreases Remaining(depth), 1, |items|
  {
    if items != [] {
      ItemsReturn(p, h, items[..|items| - 1], depth, seen);
      WalkReturns(p, h, items[|items| - 1], depth, seen);
    }
  }

  lemma {:induction false} EntriesReturn(
    p: Policy, h: Heap, entries: seq<(string, Value)>, depth: nat, seen: set<Ref>)
    requires forall r <- h :: h[r].ErrorNode? ==> h[r].name.Some?
    ensures WalkEntries(p, h, entries, depth, seen).Some?
    decreases Remaining(depth), 1, |entries| + 1
  {
    if entries != [] {
      EntriesReturn(p, h, entries[..|entries| - 1], depth, seen);
      WalkReturns(p, h, entries[|entries| - 1].1, depth, seen);
    }
  }

  /**
   * Without errors whose name is not a string a copy is that of the walk; a walk that throws gives
   * the redaction mark; and a value that is undefined as a whole is copied as null.
   */
  lemma RedactIsTotal(p: Policy, h: Heap, v: Value)
    ensures (forall r <- h :: h[r].ErrorNode? ==> h[r].name.Some?) && v != Plain(Undefined) ==>
      Walk(p, h, v, 0, {}) == Some(Redact(p, h, v))
    ensures v != Plain(Undefined) && Walk(p, h, v, 0, {}).None? ==> Redact(p, h, v) == RedactedOut
    ensures Redact(p, h, Plain(Undefined)) == PlainOut(Null)
  {
    if forall r <- h :: h[r].ErrorNode? ==> h[r].name.Some? {
      WalkReturns(p, h, v, 0, {});
    }
  }
}
