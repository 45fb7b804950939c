/** The parent chain of a category, over data that may hold cycles, duplicates and missing parents. */
module CategoryAncestors {
  import opened Wrappers

  datatype Category = Category(id: string, parentId: Option<string>, name: string)

  predicate Keyed(byId: map<string, Category>) {
    forall id <- byId :: byId[id].id == id
  }

  /** Categories by id; of several with one id the last counts. */
  function ById(categories: seq<Category>): (m: map<string, Category>)
    ensures Keyed(m)
  {
    if categories == [] then map[]
    else
      var last := categories[|categories| - 1];
      ById(categories[..|categories| - 1])[last.id := last]
  }

  /** The category that counts for its id: the last one with it. */
  predicate InForce(categories: seq<Category>, c: Category) {
    exists i :: 0 <= i < |categories| && categories[i] == c
      && forall j :: i < j < |categories| ==> categories[j].id != c.id
  }

  lemma InForceBefore(categories: seq<Category>, c: Category)
    requires categories != []
    ensures var n := |categories| - 1;
      InForce(categories, c) <==> c == categories[n] || (c.id != categories[n].id && InForce(categories[..n], c))
  {
    var n := |categories| - 1;
    var front := categories[..n];
    if c.id != categories[n].id && InForce(front, c) {
      var i :| 0 <= i < n && front[i] == c && forall j :: i < j < n ==> front[j].id != c.id;
      assert categories[i] == c;
      assert forall j :: i < j < |categories| ==> j == n || categories[j] == front[j];
    }
    if c != categories[n] && InForce(categories, c) {
      var i :| 0 <= i < |categories| && categories[i] == c
        && forall j :: i < j < |categories| ==> categories[j].id != c.id;
      assert front[i] == c;
      assert forall j :: i < j < n ==> front[j] == categories[j];
    }
  }

  lemma InFront(categories: seq<Category>, id: string)
    requires categories != []
    ensures var n := |categories| - 1;
      (exists c <- categories :: c.id == id)
      <==> categories[n].id == id || exists c <- categories[..n] :: c.id == id
  {
    assert categories == categories[..|categories| - 1] + [categories[|categories| - 1]];
  }

  /** The map holds exactly the categories that count, and there is one for every id in the list. */
  lemma {:induction false} ByIdIsInForce(categories: seq<Category>, id: string)
    ensures id in ById(categories) <==> exists c <- categories :: c.id == id
    ensures id in ById(categories) ==> InForce(categories, ById(categories)[id])
    ensures forall c: Category :: InForce(categories, c) && c.id == id ==>
      id in ById(categories) && ById(categories)[id] == c
  {
    if categories != [] {
      var n := |categories| - 1;
      ByIdIsInForce(categories[..n], id);
      forall c: Category
        ensures InForce(categories, c)
           <==> c == categories[n] || (c.id != categories[n].id && InForce(categories[..n], c))
      {
        InForceBefore(categories, c);
      }
      hide InForce;
      InFront(categories, id);
    }
  }

  /** The id of a category's parent; an empty id counts as none. */
  function ParentId(byId: map<string, Category>, id: string): Option<string> {
    if id in byId && byId[id].parentId.Some? && byId[id].parentId.value != "" then byId[id].parentId else None
  }

  /**
   * A chain upward from a category: each element is the parent of the one before it, and none of
   * them has an id that was seen already.
   */
  predicate ParentChain(byId: map<string, Category>, at: string, seen: set<string>, chain: seq<Category>)
    decreases |chain|
  {
    chain == []
    || (chain[0].id in byId && byId[chain[0].id] == chain[0]
        && ParentId(byId, at) == Some(chain[0].id) && chain[0].id !in seen
        && ParentChain(byId, chain[0].id, seen + {chain[0].id}, chain[1..]))
  }

  /** The chain that goes on as long as it can. */
  function Longest(byId: map<string, Category>, at: string, seen: set<string>): (chain: seq<Category>)
    decreases byId.Keys - seen
  {
    var next := ParentId(byId, at);
    if next.Some? && next.value !in seen && next.value in byId then
      Descent(byId, seen, next.value);
      [byId[next.value]] + Longest(byId, next.value, seen + {next.value})
    else []
  }

  lemma LongestStep(byId: map<string, Category>, at: string, seen: set<string>)
    ensures var next := ParentId(byId, at);
      Longest(byId, at, seen)
      == if next.Some? && next.value !in seen && next.value in byId
         then [byId[next.value]] + Longest(byId, next.value, seen + {next.value}) else []
  {
  }

  lemma Descent(byId: map<string, Category>, seen: set<string>, id: string)
    requires id in byId && id !in seen
    ensures byId.Keys - (seen + {id}) < byId.Keys - seen
    ensures |byId.Keys - (seen + {id})| + 1 == |byId.Keys - seen|
  {
    assert id in byId.Keys - seen;
    assert byId.Keys - (seen + {id}) == byId.Keys - seen - {id};
  }

  lemma {:induction false} LongestIsChain(byId: map<string, Category>, at: string, seen: set<string>)
    requires Keyed(byId)
    ensures ParentChain(byId, at, seen, Longest(byId, at, seen))
    ensures |Longest(byId, at, seen)| <= |byId.Keys - seen|
    decreases byId.Keys - seen
  {
    var chain := Longest(byId, at, seen);
    if chain != [] {
      Descent(byId, seen, chain[0].id);
      LongestIsChain(byId, chain[0].id, seen + {chain[0].id});
    }
  }

  /** Every chain without repetition is a beginning of the longest one. */
  lemma {:induction false} LongestExtendsAll(
    byId: map<string, Category>, at: string, seen: set<string>, chain: seq<Category>)
    requires ParentChain(byId, at, seen, chain)
    ensures chain <= Longest(byId, at, seen)
    decreases |chain|
  {
    if chain != [] {
      LongestExtendsAll(byId, chain[0].id, seen + {chain[0].id}, chain[1..]);
      assert chain == [chain[0]] + chain[1..];
    }
  }

  /** In a chain no id was seen before it and none comes twice. */
  lemma {:induction false} NoRepetition(
    byId: map<string, Category>, at: string, seen: set<string>, chain: seq<Category>)
    requires ParentChain(byId, at, seen, chain)
    ensures forall i :: 0 <= i < |chain| ==> chain[i].id !in seen
    ensures forall i, j :: 0 <= i < j < |chain| ==> chain[i].id != chain[j].id
    decreases |chain|
  {
    if chain != [] {
      NoRepetition(byId, chain[0].id, seen + {chain[0].id}, chain[1..]);
      assert forall i :: 1 <= i < |chain| ==> chain[i] == chain[1..][i - 1];
    }
  }

  function Reversed(s: seq<Category>): (r: seq<Category>)
    ensures |r| == |s| && forall i :: 0 <= i < |s| ==> r[i] == s[|s| - 1 - i]
  {
    if s == [] then [] else Reversed(s[1..]) + [s[0]]
  }

  /**
   * The ancestors of a category, root first: the longest parent chain without repetition. The
   * walk ends on cyclic data because no id is visited twice: it takes at most one step more than
   * it finds ancestors.
   */
  method Ancestors(categories: seq<Category>, currentId: string)
    returns (ancestors: seq<Category>, ghost steps: nat)
    ensures Reversed(ancestors) == Longest(ById(categories), currentId, {currentId})
    ensures LongestChain(categories, currentId, Reversed(ancestors))
    ensures |ancestors| <= |ById(categories).Keys - {currentId}|
    ensures steps <= |ancestors| + 1
  {
    assert Reversed([]) == [];
    hide ById, Longest, Reversed, LongestChain;
    var byId := ById(categories);
    ancestors, steps := [], 0;
    var visited := {currentId};
    var parentId := if currentId in byId then byId[currentId].parentId else None;
    ghost var at := currentId;
    while parentId.Some? && parentId.value != "" && parentId.value !in visited
      invariant parentId == if at in byId then byId[at].parentId else None
      invariant Reversed(ancestors) + Longest(byId, at, visited) == Longest(byId, currentId, {currentId})
      invariant steps == |ancestors|
      decreases byId.Keys - visited
    {
      steps := steps + 1;
      ghost var before := visited;
      var id := parentId.value;
      visited := visited + {id};
      if id !in byId {
        break;
      }
      var parent := byId[id];
      Descent(byId, before, id);
      assert Longest(byId, at, before) == [parent] + Longest(byId, id, visited) by { LongestStep(byId, at, before); }
      Prepended(parent, ancestors, Longest(byId, id, visited));
      ancestors := [parent] + ancestors;
      parentId := parent.parentId;
      at := id;
    }
    assert Longest(byId, at, visited) == [] by { LongestStep(byId, at, visited); }
    assert Reversed(ancestors) + [] == Reversed(ancestors);
    LongestIsChain(byId, currentId, {currentId});
    AncestorsAreLongest(categories, currentId);
  }

  lemma Prepended(c: Category, s: seq<Category>, rest: seq<Category>)
    ensures Reversed([c] + s) + rest == Reversed(s) + ([c] + rest)
  {
    assert ([c] + s)[1..] == s;
  }

  // ---- What the result means for the list ----

  /** A category in force is the parent of the one in force with an id; an empty id names no parent. */
  ghost predicate IsParent(categories: seq<Category>, child: string, parent: Category) {
    InForce(categories, parent) && parent.id != ""
    && exists c <- categories :: InForce(categories, c) && c.id == child && c.parentId == Some(parent.id)
  }

  /** Each element is the parent of the one before it, the first one that of a category. */
  ghost predicate Linked(categories: seq<Category>, at: string, chain: seq<Category>) {
    forall k :: 0 <= k < |chain| ==> IsParent(categories, ChildOf(at, chain, k), chain[k])
  }

  function ChildOf(at: string, chain: seq<Category>, k: nat): string
    requires k < |chain|
  {
    if k == 0 then at else chain[k - 1].id
  }

  /** No id comes twice, and none is that of the category itself. */
  predicate Simple(at: string, chain: seq<Category>) {
    (forall i :: 0 <= i < |chain| ==> chain[i].id != at)
    && forall i, j :: 0 <= i < j < |chain| ==> chain[i].id != chain[j].id
  }

  /** The chain of parents that no other one without repetition goes beyond. */
  ghost predicate LongestChain(categories: seq<Category>, at: string, chain: seq<Category>) {
    Linked(categories, at, chain) && Simple(at, chain)
    && forall other :: Linked(categories, at, other) && Simple(at, other) ==> other <= chain
  }

  lemma ParentsAgree(categories: seq<Category>, child: string, parent: Category)
    ensures IsParent(categories, child, parent)
       <==> ParentId(ById(categories), child) == Some(parent.id)
            && parent.id in ById(categories) && ById(categories)[parent.id] == parent
  {
    ByIdIsInForce(categories, child);
    ByIdIsInForce(categories, parent.id);
    hide ById;
    var byId := ById(categories);
    if child in byId {
      assert InForce(categories, byId[child]);
      assert byId[child] in categories;
    }
  }

  lemma {:induction false} LinksAreChain(
    categories: seq<Category>, at: string, seen: set<string>, chain: seq<Category>)
    ensures ParentChain(ById(categories), at, seen, chain)
       <==> Linked(categories, at, chain) && (forall i :: 0 <= i < |chain| ==> chain[i].id !in seen)
            && forall i, j :: 0 <= i < j < |chain| ==> chain[i].id != chain[j].id
    decreases |chain|
  {
    if chain != [] {
      var head, rest := chain[0], chain[1..];
      ParentsAgree(categories, at, head);
      LinksAreChain(categories, head.id, seen + {head.id}, rest);
      LinkedHead(categories, at, chain);
      if ParentChain(ById(categories), at, seen, chain) {
        NoRepetition(ById(categories), at, seen, chain);
      }
      hide Linked, IsParent, ById, ParentId;
      assert forall i :: 0 < i < |chain| ==> chain[i] == rest[i - 1];
      assert forall i :: 0 <= i < |rest| ==> rest[i] == chain[i + 1];
    }
  }

  lemma LinkedHead(categories: seq<Category>, at: string, chain: seq<Category>)
    requires chain != []
    ensures Linked(categories, at, chain)
       <==> IsParent(categories, at, chain[0]) && Linked(categories, chain[0].id, chain[1..])
  {
    hide IsParent;
    var rest := chain[1..];
    assert forall k :: 0 <= k < |rest| ==>
      rest[k] == chain[k + 1] && ChildOf(chain[0].id, rest, k) == ChildOf(at, chain, k + 1);
    if IsParent(categories, at, chain[0]) && Linked(categories, chain[0].id, rest) {
      forall k | 0 <= k < |chain|
        ensures IsParent(categories, ChildOf(at, chain, k), chain[k])
      {
        if k > 0 {
          assert IsParent(categories, ChildOf(chain[0].id, rest, k - 1), rest[k - 1]);
        }
      }
    }
  }

  /**
   * What the result means for the list: every category's parent stands next to it, the current
   * category's at the end, nothing repeats, and no longer such chain exists.
   */
  lemma AncestorsAreLongest(categories: seq<Category>, currentId: string)
    ensures LongestChain(categories, currentId, Longest(ById(categories), currentId, {currentId}))
  {
    var byId := ById(categories);
    var longest := Longest(byId, currentId, {currentId});
    LongestIsChain(byId, currentId, {currentId});
    LinksAreChain(categories, currentId, {currentId}, longest);
    hide ById, Longest, Linked, ParentChain;
    forall other | Linked(categories, currentId, other) && Simple(currentId, other)
      ensures other <= longest
    {
      LinksAreChain(categories, currentId, {currentId}, other);
      LongestExtendsAll(byId, currentId, {currentId}, other);
    }
  }
}
