/** The namespace tree of a Redis key list: a trie over the segments between colons. */
module RedisTrie {
  import opened Bytes
  import opened Wrappers

  datatype RedisKey = RedisKey(key: string, keyType: string, ttl: int)

  /** A node's children are in the order of their insertion, as a JavaScript Map keeps them, until it is finalized. */
  datatype Node = Node(name: string, fullKey: string, keyType: string, ttl: int, isLeaf: bool, keyCount: nat,
                       children: seq<Node>)

  /** The order of names that localeCompare gives; every total order of strings embeds into the reals. */
  type Locale = string -> real

  // ---------------------------------------------------------------- segments

  function AddChar(segs: seq<string>, c: char): (r: seq<string>)
    requires segs != []
    ensures r != []
  {
    var last := |segs| - 1;
    if c == ':' then segs + [""] else segs[..last] + [segs[last] + [c]]
  }

  function Split(key: string): (segs: seq<string>)
    ensures segs != []
  {
    if key == "" then [""] else AddChar(Split(key[..|key| - 1]), key[|key| - 1])
  }

  function Join(segs: seq<string>): string {
    if segs == [] then ""
    else if |segs| == 1 then segs[0]
    else Join(segs[..|segs| - 1]) + ":" + segs[|segs| - 1]
  }

  lemma JoinAppend(front: seq<string>, last: string)
    requires front != []
    ensures Join(front + [last]) == Join(front) + ":" + last
  {
    assert (front + [last])[..|front|] == front;
  }

  lemma JoinLonger(front: seq<string>, last: string, c: char)
    ensures Join(front + [last + [c]]) == Join(front + [last]) + [c]
  {
    if front != [] {
      JoinAppend(front, last);
      JoinAppend(front, last + [c]);
    }
  }

  lemma JoinAddChar(segs: seq<string>, c: char)
    requires segs != []
    ensures Join(AddChar(segs, c)) == Join(segs) + [c]
  {
    if c == ':' {
      JoinAppend(segs, "");
    } else {
      JoinLonger(segs[..|segs| - 1], segs[|segs| - 1], c);
      assert segs == segs[..|segs| - 1] + [segs[|segs| - 1]];
    }
  }

  lemma {:induction false} JoinSplit(key: string)
    ensures Join(Split(key)) == key
  {
    if key != "" {
      var front, c := key[..|key| - 1], key[|key| - 1];
      JoinSplit(front);
      JoinAddChar(Split(front), c);
      assert key == front + [c] && Split(key) == AddChar(Split(front), c);
    }
  }

  /** Different keys have different segments. */
  lemma SplitIsInjective(a: string, b: string)
    ensures Split(a) == Split(b) <==> a == b
  {
    JoinSplit(a);
    JoinSplit(b);
  }

  // ---------------------------------------------------------------- one level

  function NodeNamed(level: seq<Node>, name: string): (r: Option<Node>)
    ensures r.Some? ==> r.value in level && r.value.name == name
  {
    if level == [] then None
    else if level[|level| - 1].name == name then Some(level[|level| - 1])
    else NodeNamed(level[..|level| - 1], name)
  }

  /** Sets the node under its name, where it stands or else at the end. */
  function Put(level: seq<Node>, node: Node): seq<Node> {
    if level == [] then [node]
    else
      var front, last := level[..|level| - 1], level[|level| - 1];
      if last.name == node.name then front + [node] else Put(front, node) + [last]
  }

  lemma {:induction false} PutNamed(level: seq<Node>, node: Node, name: string)
    ensures NodeNamed(Put(level, node), name) == if name == node.name then Some(node) else NodeNamed(level, name)
  {
    if level != [] {
      var front, last := level[..|level| - 1], level[|level| - 1];
      if last.name == node.name {
        assert (front + [node])[..|front|] == front;
      } else {
        PutNamed(front, node, name);
        var put := Put(front, node);
        assert (put + [last])[..|put|] == put;
      }
    }
  }

  // ---------------------------------------------------------------- building

  function NextPath(path: string, seg: string): string {
    if path != "" then path + ":" + seg else seg
  }

  /** The node to insert at: the one there, or a new one. */
  function NodeFor(level: seq<Node>, segs: seq<string>, path: string, k: RedisKey): Node
    requires segs != []
  {
    var found := NodeNamed(level, segs[0]);
    if found.Some? then found.value
    else if |segs| == 1 then Node(segs[0], NextPath(path, segs[0]), k.keyType, k.ttl, true, 0, [])
    else Node(segs[0], NextPath(path, segs[0]), "", 0, false, 0, [])
  }

  /** What stands there afterwards. */
  function NewNode(level: seq<Node>, segs: seq<string>, path: string, k: RedisKey): Node
    requires segs != []
    decreases |segs|, 0
  {
    var node := NodeFor(level, segs, path, k);
    if |segs| == 1 then node.(isLeaf := true, keyType := k.keyType, ttl := k.ttl, fullKey := k.key)
    else node.(children := Insert(node.children, segs[1..], NextPath(path, segs[0]), k))
  }

  function Insert(level: seq<Node>, segs: seq<string>, path: string, k: RedisKey): seq<Node>
    requires segs != []
    decreases |segs|, 1
  {
    Put(level, NewNode(level, segs, path, k))
  }

  function Build(keys: seq<RedisKey>): seq<Node> {
    if keys == [] then []
    else
      var last := keys[|keys| - 1];
      Insert(Build(keys[..|keys| - 1]), Split(last.key), "", last)
  }

  /** The node that a path of segments leads to. */
  function NodeAt(level: seq<Node>, segs: seq<string>): Option<Node>
    requires segs != []
    decreases |segs|
  {
    var found := NodeNamed(level, segs[0]);
    if found.None? || |segs| == 1 then found else NodeAt(found.value.children, segs[1..])
  }

  function Count(node: Node): nat
    decreases node, 1
  {
    (if node.isLeaf then 1 else 0) + CountAll(node.children)
  }

  function CountAll(level: seq<Node>): nat
    decreases level, 0
  {
    if level == [] then 0 else CountAll(level[..|level| - 1]) + Count(level[|level| - 1])
  }

  function CountNamed(level: seq<Node>, name: string): nat {
    var found := NodeNamed(level, name);
    if found.Some? then Count(found.value) else 0
  }

  lemma {:induction false} PutCount(level: seq<Node>, node: Node)
    ensures CountAll(Put(level, node)) == CountAll(level) - CountNamed(level, node.name) + Count(node)
  {
    if level == [] {
      assert [node][..0] == [];
    } else {
      var front, last := level[..|level| - 1], level[|level| - 1];
      if last.name == node.name {
        assert (front + [node])[..|front|] == front;
      } else {
        PutCount(front, node);
        var put := Put(front, node);
        assert (put + [last])[..|put|] == put;
      }
    }
  }

  predicate Terminal(level: seq<Node>, segs: seq<string>)
    requires segs != []
  {
    var found := NodeAt(level, segs);
    found.Some? && found.value.isLeaf
  }

  function One(b: bool): nat {
    if b then 1 else 0
  }

  /** Inserting a key adds one to the count of every path to it, if the key is new. */
  lemma {:induction false} InsertCounts(level: seq<Node>, segs: seq<string>, path: string, k: RedisKey)
    requires segs != []
    ensures CountAll(Insert(level, segs, path, k)) == CountAll(level) + One(!Terminal(level, segs))
    ensures Count(NewNode(level, segs, path, k)) == CountNamed(level, segs[0]) + One(!Terminal(level, segs))
    decreases |segs|
  {
    if |segs| > 1 {
      var node := NodeFor(level, segs, path, k);
      InsertCounts(node.children, segs[1..], NextPath(path, segs[0]), k);
    }
    PutCount(level, NewNode(level, segs, path, k));
  }

  /** What the insertion of `k` does to the node at `at`. */
  ghost predicate Inserted(before: Option<Node>, after: Option<Node>, segs: seq<string>, at: seq<string>, k: RedisKey,
                           isNew: bool) {
    if !(at <= segs) then after == before
    else
      && after.Some?
      && Count(after.value) == (if before.Some? then Count(before.value) else 0) + One(isNew)
      && if at == segs then
           && after.value.isLeaf && after.value.fullKey == k.key
           && after.value.keyType == k.keyType && after.value.ttl == k.ttl
         else if before.Some? then
           after.value == before.value.(children := after.value.children)
         else !after.value.isLeaf
  }

  /** Only the nodes on the way to the key change. */
  lemma {:induction false} InsertAt(level: seq<Node>, segs: seq<string>, path: string, k: RedisKey, at: seq<string>)
    requires segs != [] && at != []
    ensures Inserted(NodeAt(level, at), NodeAt(Insert(level, segs, path, k), at), segs, at, k, !Terminal(level, segs))
    decreases |segs|
  {
    PutNamed(level, NewNode(level, segs, path, k), at[0]);
    if at[0] == segs[0] {
      if |at| == 1 {
        InsertCounts(level, segs, path, k);
      } else if |segs| > 1 {
        var node := NodeFor(level, segs, path, k);
        InsertAt(node.children, segs[1..], NextPath(path, segs[0]), k, at[1..]);
      }
    }
  }

  // ---------------------------------------------------------------- finalizing

  function Compare(locale: Locale, a: Node, b: Node): real {
    if a.isLeaf != b.isLeaf then (if a.isLeaf then 1.0 else -1.0)
    else if !a.isLeaf && a.keyCount != b.keyCount then (b.keyCount - a.keyCount) as real
    else locale(a.name) - locale(b.name)
  }

  /** Stable: behind the last node that does not come after `x`. */
  function SortedInsert(locale: Locale, s: seq<Node>, x: Node): seq<Node> {
    if s == [] then [x]
    else
      var front, last := s[..|s| - 1], s[|s| - 1];
      if Compare(locale, last, x) <= 0.0 then s + [x] else SortedInsert(locale, front, x) + [last]
  }

  function Sort(locale: Locale, s: seq<Node>): seq<Node> {
    if s == [] then [] else SortedInsert(locale, Sort(locale, s[..|s| - 1]), s[|s| - 1])
  }

  function Finalize(locale: Locale, node: Node): Node
    decreases node, 1
  {
    var children := FinalizeAll(locale, node.children);
    node.(keyCount := One(node.isLeaf) + SumCounts(children), children := Sort(locale, children))
  }

  function FinalizeAll(locale: Locale, level: seq<Node>): seq<Node>
    decreases level, 0
  {
    if level == [] then []
    else FinalizeAll(locale, level[..|level| - 1]) + [Finalize(locale, level[|level| - 1])]
  }

  function SumCounts(level: seq<Node>): nat {
    if level == [] then 0 else SumCounts(level[..|level| - 1]) + level[|level| - 1].keyCount
  }

  function Tree(locale: Locale, keys: seq<RedisKey>): seq<Node> {
    Sort(locale, FinalizeAll(locale, Build(keys)))
  }

  // ---------------------------------------------------------------- finalizing keeps the paths

  predicate DistinctNames(level: seq<Node>) {
    level == []
    || (DistinctNames(level[..|level| - 1]) && NodeNamed(level[..|level| - 1], level[|level| - 1].name).None?)
  }

  /** Names are distinct on every level. */
  ghost predicate WellNamed(level: seq<Node>)
    decreases level
  {
    DistinctNames(level) && forall i | 0 <= i < |level| :: WellNamed(level[i].children)
  }

  lemma {:induction false} PutDistinct(level: seq<Node>, node: Node)
    requires DistinctNames(level)
    ensures DistinctNames(Put(level, node))
  {
    if level == [] {
      assert [node][..0] == [];
    } else {
      var front, last := level[..|level| - 1], level[|level| - 1];
      if last.name == node.name {
        assert (front + [node])[..|front|] == front;
      } else {
        PutDistinct(front, node);
        PutNamed(front, node, last.name);
        var put := Put(front, node);
        assert (put + [last])[..|put|] == put;
      }
    }
  }

  lemma {:induction false} PutMembers(level: seq<Node>, node: Node)
    ensures forall n | n in Put(level, node) :: n in level || n == node
  {
    if level != [] {
      PutMembers(level[..|level| - 1], node);
    }
  }

  lemma PutWellNamed(level: seq<Node>, node: Node)
    requires WellNamed(level) && WellNamed(node.children)
    ensures WellNamed(Put(level, node))
  {
    PutDistinct(level, node);
    PutMembers(level, node);
    var put := Put(level, node);
    forall i | 0 <= i < |put|
      ensures WellNamed(put[i].children)
    {
      assert put[i] in put;
    }
  }

  lemma {:induction false} InsertWellNamed(level: seq<Node>, segs: seq<string>, path: string, k: RedisKey)
    requires segs != [] && WellNamed(level)
    ensures WellNamed(Insert(level, segs, path, k))
    decreases |segs|
  {
    var node := NodeFor(level, segs, path, k);
    assert WellNamed(node.children);
    if |segs| > 1 {
      InsertWellNamed(node.children, segs[1..], NextPath(path, segs[0]), k);
    }
    PutWellNamed(level, NewNode(level, segs, path, k));
  }

  lemma {:induction false} BuildWellNamed(keys: seq<RedisKey>)
    ensures WellNamed(Build(keys))
  {
    if keys != [] {
      var last := keys[|keys| - 1];
      BuildWellNamed(keys[..|keys| - 1]);
      InsertWellNamed(Build(keys[..|keys| - 1]), Split(last.key), "", last);
    }
  }

  lemma {:induction false} SortedInsertNamed(locale: Locale, s: seq<Node>, x: Node, name: string)
    requires NodeNamed(s, x.name).None?
    ensures NodeNamed(SortedInsert(locale, s, x), name) == if name == x.name then Some(x) else NodeNamed(s, name)
  {
    if s == [] {
      assert [x][..0] == [];
    } else {
      var front, last := s[..|s| - 1], s[|s| - 1];
      if Compare(locale, last, x) <= 0.0 {
        assert (s + [x])[..|s|] == s;
      } else {
        SortedInsertNamed(locale, front, x, name);
        var put := SortedInsert(locale, front, x);
        assert (put + [last])[..|put|] == put;
      }
    }
  }

  lemma {:induction false} SortNamed(locale: Locale, s: seq<Node>, name: string)
    requires DistinctNames(s)
    ensures NodeNamed(Sort(locale, s), name) == NodeNamed(s, name)
  {
    if s != [] {
      var front, last := s[..|s| - 1], s[|s| - 1];
      SortNamed(locale, front, name);
      SortNamed(locale, front, last.name);
      SortedInsertNamed(locale, Sort(locale, front), last, name);
    }
  }

  function Finalized(locale: Locale, found: Option<Node>): Option<Node> {
    if found.Some? then Some(Finalize(locale, found.value)) else None
  }

  lemma {:induction false} FinalizeAllNamed(locale: Locale, level: seq<Node>, name: string)
    ensures var found := NodeNamed(level, name);
            NodeNamed(FinalizeAll(locale, level), name) == Finalized(locale, found)
  {
    if level != [] {
      var front, last := level[..|level| - 1], level[|level| - 1];
      FinalizeAllNamed(locale, front, name);
      var all := FinalizeAll(locale, front);
      assert (all + [Finalize(locale, last)])[..|all|] == all;
    }
  }

  lemma {:induction false} FinalizeAllDistinct(locale: Locale, level: seq<Node>)
    requires DistinctNames(level)
    ensures DistinctNames(FinalizeAll(locale, level))
  {
    if level != [] {
      var front, last := level[..|level| - 1], level[|level| - 1];
      FinalizeAllDistinct(locale, front);
      FinalizeAllNamed(locale, front, last.name);
      var all := FinalizeAll(locale, front);
      assert (all + [Finalize(locale, last)])[..|all|] == all;
    }
  }

  /** Sorting and counting leave every node at its path. */
  lemma {:induction false} FinalizedAt(locale: Locale, level: seq<Node>, segs: seq<string>)
    requires segs != [] && WellNamed(level)
    ensures var found := NodeAt(level, segs);
            NodeAt(Sort(locale, FinalizeAll(locale, level)), segs) == Finalized(locale, found)
    decreases |segs|
  {
    FinalizeAllDistinct(locale, level);
    SortNamed(locale, FinalizeAll(locale, level), segs[0]);
    FinalizeAllNamed(locale, level, segs[0]);
    var found := NodeNamed(level, segs[0]);
    if found.Some? && |segs| > 1 {
      assert WellNamed(found.value.children);
      FinalizedAt(locale, found.value.children, segs[1..]);
    }
  }

  lemma {:induction false} FinalizeCounts(locale: Locale, level: seq<Node>)
    ensures SumCounts(FinalizeAll(locale, level)) == CountAll(level)
    decreases level
  {
    if level != [] {
      var front, last := level[..|level| - 1], level[|level| - 1];
      FinalizeCounts(locale, front);
      FinalizeCounts(locale, last.children);
      var all := FinalizeAll(locale, front);
      assert (all + [Finalize(locale, last)])[..|all|] == all;
    }
  }

  lemma FinalizeCount(locale: Locale, node: Node)
    ensures Finalize(locale, node).keyCount == Count(node)
  {
    FinalizeCounts(locale, node.children);
  }

  lemma {:induction false} SortedInsertSum(locale: Locale, s: seq<Node>, x: Node)
    ensures SumCounts(SortedInsert(locale, s, x)) == SumCounts(s) + x.keyCount
  {
    if s == [] {
      assert [x][..0] == [];
    } else {
      var front, last := s[..|s| - 1], s[|s| - 1];
      if Compare(locale, last, x) <= 0.0 {
        assert (s + [x])[..|s|] == s;
      } else {
        SortedInsertSum(locale, front, x);
        var put := SortedInsert(locale, front, x);
        assert (put + [last])[..|put|] == put;
      }
    }
  }

  lemma {:induction false} SortSum(locale: Locale, s: seq<Node>)
    ensures SumCounts(Sort(locale, s)) == SumCounts(s)
  {
    if s != [] {
      SortSum(locale, s[..|s| - 1]);
      SortedInsertSum(locale, Sort(locale, s[..|s| - 1]), s[|s| - 1]);
    }
  }

  // ---------------------------------------------------------------- order

  ghost predicate Ordered(locale: Locale, s: seq<Node>) {
    forall i, j | 0 <= i < j < |s| :: Compare(locale, s[i], s[j]) <= 0.0
  }

  ghost predicate OrderedThroughout(locale: Locale, level: seq<Node>)
    decreases level
  {
    Ordered(locale, level) && forall i | 0 <= i < |level| :: OrderedThroughout(locale, level[i].children)
  }

  lemma CompareIsTransitive(locale: Locale, a: Node, b: Node, c: Node)
    requires Compare(locale, a, b) <= 0.0 && Compare(locale, b, c) <= 0.0
    ensures Compare(locale, a, c) <= 0.0
  {
  }

  lemma {:induction false} SortedInsertMembers(locale: Locale, s: seq<Node>, x: Node)
    ensures forall n :: n in SortedInsert(locale, s, x) <==> n in s || n == x
  {
    if s != [] {
      var front, last := s[..|s| - 1], s[|s| - 1];
      assert s == front + [last];
      SortedInsertMembers(locale, front, x);
    }
  }

  lemma {:induction false} SortedInsertOrdered(locale: Locale, s: seq<Node>, x: Node)
    requires Ordered(locale, s)
    ensures Ordered(locale, SortedInsert(locale, s, x))
  {
    if s != [] {
      var front, last := s[..|s| - 1], s[|s| - 1];
      if Compare(locale, last, x) <= 0.0 {
        forall i | 0 <= i < |s|
          ensures Compare(locale, s[i], x) <= 0.0
        {
          if i < |s| - 1 {
            CompareIsTransitive(locale, s[i], last, x);
          }
        }
      } else {
        SortedInsertOrdered(locale, front, x);
        SortedInsertMembers(locale, front, x);
        var put := SortedInsert(locale, front, x);
        forall i | 0 <= i < |put|
          ensures Compare(locale, put[i], last) <= 0.0
        {
          assert put[i] in put;
        }
      }
    }
  }

  lemma {:induction false} SortOrdered(locale: Locale, s: seq<Node>)
    ensures Ordered(locale, Sort(locale, s))
    ensures forall n :: n in Sort(locale, s) <==> n in s
  {
    if s != [] {
      var front, last := s[..|s| - 1], s[|s| - 1];
      SortOrdered(locale, front);
      SortedInsertOrdered(locale, Sort(locale, front), last);
      SortedInsertMembers(locale, Sort(locale, front), last);
      assert s == front + [last];
    }
  }

  lemma {:induction false} FinalizeAllOrdered(locale: Locale, level: seq<Node>)
    ensures forall n | n in FinalizeAll(locale, level) :: OrderedThroughout(locale, n.children)
    decreases level, 0
  {
    if level != [] {
      var front, last := level[..|level| - 1], level[|level| - 1];
      FinalizeAllOrdered(locale, front);
      SortedChildren(locale, last.children);
    }
  }

  lemma {:induction false} SortedChildren(locale: Locale, level: seq<Node>)
    ensures OrderedThroughout(locale, Sort(locale, FinalizeAll(locale, level)))
    decreases level, 1
  {
    var all := FinalizeAll(locale, level);
    FinalizeAllOrdered(locale, level);
    SortOrdered(locale, all);
    var sorted := Sort(locale, all);
    forall i | 0 <= i < |sorted|
      ensures OrderedThroughout(locale, sorted[i].children)
    {
      assert sorted[i] in sorted;
    }
  }

  // ---------------------------------------------------------------- the tree and the key list

  /** The distinct keys whose segments begin with `segs`. */
  function KeysUnder(keys: seq<RedisKey>, segs: seq<string>): set<string> {
    set i | 0 <= i < |keys| && segs <= Split(keys[i].key) :: keys[i].key
  }

  ghost predicate IsLast(keys: seq<RedisKey>, i: nat) {
    i < |keys| && forall j | i < j < |keys| :: keys[j].key != keys[i].key
  }

  /** What stands at a path of the tree before it is finalized. */
  ghost predicate Matches(keys: seq<RedisKey>, segs: seq<string>, found: Option<Node>) {
    && (found.Some? <==> KeysUnder(keys, segs) != {})
    && (found.Some? ==> Count(found.value) == |KeysUnder(keys, segs)|)
    && (found.Some? && found.value.isLeaf <==> exists i | 0 <= i < |keys| :: Split(keys[i].key) == segs)
    && (forall i: nat | IsLast(keys, i) && Split(keys[i].key) == segs && found.Some? ::
          && found.value.fullKey == keys[i].key
          && found.value.keyType == keys[i].keyType && found.value.ttl == keys[i].ttl)
  }

  lemma KeysUnderSnoc(front: seq<RedisKey>, last: RedisKey, segs: seq<string>)
    ensures KeysUnder(front + [last], segs)
         == KeysUnder(front, segs) + if segs <= Split(last.key) then {last.key} else {}
  {
    var all := front + [last];
    assert all[|front|] == last;
    forall key | key in KeysUnder(front, segs)
      ensures key in KeysUnder(all, segs)
    {
      var i :| 0 <= i < |front| && segs <= Split(front[i].key) && front[i].key == key;
      assert all[i] == front[i];
    }
  }

  lemma {:induction false} BuildMatches(keys: seq<RedisKey>, segs: seq<string>)
    requires segs != []
    ensures Matches(keys, segs, NodeAt(Build(keys), segs))
  {
    if keys != [] {
      var front, last := keys[..|keys| - 1], keys[|keys| - 1];
      assert keys == front + [last];
      BuildMatches(front, segs);
      BuildMatches(front, Split(last.key));
      InsertAt(Build(front), Split(last.key), "", last, segs);
      KeysUnderSnoc(front, last, segs);
      MatchesSnoc(front, last, segs, NodeAt(Build(front), segs), NodeAt(Build(keys), segs),
                  !Terminal(Build(front), Split(last.key)));
    }
  }

  lemma KnownIsUnder(front: seq<RedisKey>, last: RedisKey, segs: seq<string>)
    requires segs <= Split(last.key)
    ensures last.key in KeysUnder(front, segs)
            <==> exists i | 0 <= i < |front| :: Split(front[i].key) == Split(last.key)
  {
    if last.key in KeysUnder(front, segs) {
      var i :| 0 <= i < |front| && front[i].key == last.key;
      assert Split(front[i].key) == Split(last.key);
    }
    if i :| 0 <= i < |front| && Split(front[i].key) == Split(last.key) {
      SplitIsInjective(front[i].key, last.key);
    }
  }

  lemma LeafSnoc(front: seq<RedisKey>, last: RedisKey, segs: seq<string>)
    ensures (exists i | 0 <= i < |front + [last]| :: Split((front + [last])[i].key) == segs)
       <==> Split(last.key) == segs || exists i | 0 <= i < |front| :: Split(front[i].key) == segs
  {
    var all := front + [last];
    assert all[|front|] == last;
    if i :| 0 <= i < |front| && Split(front[i].key) == segs {
      assert Split(all[i].key) == segs;
    }
  }

  lemma LastSnoc(front: seq<RedisKey>, last: RedisKey, i: nat)
    ensures IsLast(front + [last], i)
       <==> i == |front| || (IsLast(front, i) && front[i].key != last.key)
  {
    var all := front + [last];
    assert all[|front|] == last;
    if i < |front| && IsLast(all, i) {
      assert forall j | i < j < |front| :: front[j].key == all[j].key;
    }
  }

  lemma EmptyIsUnder(keys: seq<RedisKey>, segs: seq<string>, i: nat)
    requires i < |keys| && Split(keys[i].key) == segs
    ensures keys[i].key in KeysUnder(keys, segs)
  {
  }

  lemma FieldsSnoc(front: seq<RedisKey>, last: RedisKey, segs: seq<string>, before: Option<Node>,
                   after: Option<Node>, isNew: bool, i: nat)
    requires Matches(front, segs, before) && Inserted(before, after, Split(last.key), segs, last, isNew)
    requires IsLast(front + [last], i) && Split((front + [last])[i].key) == segs && after.Some?
    ensures after.value.fullKey == (front + [last])[i].key && after.value.keyType == (front + [last])[i].keyType
         && after.value.ttl == (front + [last])[i].ttl
  {
    LastSnoc(front, last, i);
    if i < |front| {
      EmptyIsUnder(front, segs, i);
      SplitIsInjective(front[i].key, last.key);
    }
  }

  lemma CountsSnoc(front: seq<RedisKey>, last: RedisKey, segs: seq<string>, before: Option<Node>,
                   after: Option<Node>, isNew: bool)
    requires Matches(front, segs, before) && Inserted(before, after, Split(last.key), segs, last, isNew)
    requires isNew <==> !exists i | 0 <= i < |front| :: Split(front[i].key) == Split(last.key)
    ensures after.Some? <==> KeysUnder(front + [last], segs) != {}
    ensures after.Some? ==> Count(after.value) == |KeysUnder(front + [last], segs)|
  {
    KeysUnderSnoc(front, last, segs);
    if segs <= Split(last.key) {
      KnownIsUnder(front, last, segs);
      OneMoreKey(KeysUnder(front, segs), last.key);
    }
  }

  lemma MatchesSnoc(front: seq<RedisKey>, last: RedisKey, segs: seq<string>, before: Option<Node>,
                    after: Option<Node>, isNew: bool)
    requires Matches(front, segs, before) && Inserted(before, after, Split(last.key), segs, last, isNew)
    requires isNew <==> !exists i | 0 <= i < |front| :: Split(front[i].key) == Split(last.key)
    ensures Matches(front + [last], segs, after)
  {
    CountsSnoc(front, last, segs, before, after, isNew);
    LeafSnoc(front, last, segs);
    forall i: nat | IsLast(front + [last], i) && Split((front + [last])[i].key) == segs && after.Some?
      ensures after.value.fullKey == (front + [last])[i].key && after.value.keyType == (front + [last])[i].keyType
           && after.value.ttl == (front + [last])[i].ttl
    {
      FieldsSnoc(front, last, segs, before, after, isNew, i);
    }
  }

  /** The finalized node at a path, and the key list. */
  ghost predicate TreeMatches(keys: seq<RedisKey>, segs: seq<string>, found: Option<Node>) {
    && (found.Some? <==> KeysUnder(keys, segs) != {})
    && (found.Some? ==> found.value.keyCount == |KeysUnder(keys, segs)|)
    && (found.Some? && found.value.isLeaf <==> exists i | 0 <= i < |keys| :: Split(keys[i].key) == segs)
    && (forall i: nat | IsLast(keys, i) && Split(keys[i].key) == segs ::
          && found.Some? && found.value.fullKey == keys[i].key
          && found.value.keyType == keys[i].keyType && found.value.ttl == keys[i].ttl)
  }

  /** The tree has a node at exactly the segment prefixes of the keys; it counts the distinct keys with that
      prefix; it is terminal exactly when the prefix is a whole key, and then carries that key and the type and
      ttl of its last occurrence. */
  lemma TreeAgreesWithKeys(locale: Locale, keys: seq<RedisKey>, segs: seq<string>)
    requires segs != []
    ensures TreeMatches(keys, segs, NodeAt(Tree(locale, keys), segs))
  {
    BuildWellNamed(keys);
    BuildMatches(keys, segs);
    FinalizedAt(locale, Build(keys), segs);
    var found := NodeAt(Build(keys), segs);
    if found.Some? {
      FinalizeCount(locale, found.value);
    }
    forall i: nat | IsLast(keys, i) && Split(keys[i].key) == segs
      ensures found.Some?
    {
      EmptyIsUnder(keys, segs, i);
    }
  }

  lemma TerminalIsKnown(keys: seq<RedisKey>, key: string)
    ensures Terminal(Build(keys), Split(key)) <==> exists i | 0 <= i < |keys| :: Split(keys[i].key) == Split(key)
  {
    BuildMatches(keys, Split(key));
  }

  lemma OneMoreKey(keys: set<string>, key: string)
    ensures |keys + {key}| == |keys| + One(key !in keys)
  {
    if key in keys {
      assert keys + {key} == keys;
    }
  }

  lemma {:induction false} BuildCounts(keys: seq<RedisKey>)
    ensures CountAll(Build(keys)) == |KeysUnder(keys, [])|
  {
    if keys == [] {
      assert KeysUnder(keys, []) == {};
    } else {
      var front, last := keys[..|keys| - 1], keys[|keys| - 1];
      assert keys == front + [last];
      BuildCounts(front);
      InsertCounts(Build(front), Split(last.key), "", last);
      TerminalIsKnown(front, last.key);
      KnownIsUnder(front, last, []);
      KeysUnderSnoc(front, last, []);
      OneMoreKey(KeysUnder(front, []), last.key);
    }
  }

  /** The counts of the roots add up to the number of distinct keys. */
  lemma RootsAddUp(locale: Locale, keys: seq<RedisKey>)
    ensures SumCounts(Tree(locale, keys)) == |set i | 0 <= i < |keys| :: keys[i].key|
  {
    BuildCounts(keys);
    FinalizeCounts(locale, Build(keys));
    SortSum(locale, FinalizeAll(locale, Build(keys)));
    assert KeysUnder(keys, []) == set i | 0 <= i < |keys| :: keys[i].key;
  }

  /** On every level directories come first, the fuller before the emptier and then by name, and leaves after
      them by name. */
  lemma TreeIsOrdered(locale: Locale, keys: seq<RedisKey>)
    ensures OrderedThroughout(locale, Tree(locale, keys))
  {
    SortedChildren(locale, Build(keys));
  }

  // ---------------------------------------------------------------- the keys of directories

  /** The path built up along `segs`. */
  function PathFrom(path: string, segs: seq<string>): string
    decreases |segs|
  {
    if segs == [] then path else PathFrom(NextPath(path, segs[0]), segs[1..])
  }

  function WithoutLeadingEmpty(segs: seq<string>): seq<string> {
    if segs != [] && segs[0] == "" then WithoutLeadingEmpty(segs[1..]) else segs
  }

  /** A directory carries the path it was created under, and neither type nor ttl. */
  ghost predicate CarriesPath(found: Option<Node>, path: string) {
    found.Some? && !found.value.isLeaf ==>
      found.value.fullKey == path && found.value.keyType == "" && found.value.ttl == 0
  }

  lemma {:induction false} InsertKeepsPath(level: seq<Node>, segs: seq<string>, path: string, k: RedisKey,
                                           at: seq<string>)
    requires segs != [] && at != [] && CarriesPath(NodeAt(level, at), PathFrom(path, at))
    ensures CarriesPath(NodeAt(Insert(level, segs, path, k), at), PathFrom(path, at))
    decreases |segs|
  {
    PutNamed(level, NewNode(level, segs, path, k), at[0]);
    if at[0] == segs[0] && |segs| > 1 {
      if |at| == 1 {
        assert PathFrom(path, at) == NextPath(path, at[0]);
      } else {
        InsertKeepsPath(NodeFor(level, segs, path, k).children, segs[1..], NextPath(path, segs[0]), k, at[1..]);
      }
    }
  }

  lemma {:induction false} BuildKeepsPaths(keys: seq<RedisKey>, at: seq<string>)
    requires at != []
    ensures CarriesPath(NodeAt(Build(keys), at), PathFrom("", at))
  {
    if keys != [] {
      var front, last := keys[..|keys| - 1], keys[|keys| - 1];
      BuildKeepsPaths(front, at);
      InsertKeepsPath(Build(front), Split(last.key), "", last, at);
    }
  }

  lemma {:induction false} PathFromIsJoin(front: seq<string>, segs: seq<string>)
    requires front != [] && Join(front) != ""
    ensures PathFrom(Join(front), segs) == Join(front + segs)
    decreases |segs|
  {
    if segs == [] {
      assert front + segs == front;
    } else {
      var first, rest := segs[0], segs[1..];
      assert segs == [first] + rest;
      Associative(front, [first], rest);
      JoinAppend(front, first);
      PathFromIsJoin(front + [first], rest);
    }
  }

  lemma {:induction false} PathIsJoin(segs: seq<string>)
    ensures PathFrom("", segs) == Join(WithoutLeadingEmpty(segs))
  {
    if segs != [] {
      if segs[0] == "" {
        PathIsJoin(segs[1..]);
      } else {
        PathFromIsJoin([segs[0]], segs[1..]);
        assert [segs[0]] + segs[1..] == segs;
      }
    }
  }

  lemma {:induction false} JoinCons(first: string, segs: seq<string>)
    requires segs != []
    ensures Join([first] + segs) == first + ":" + Join(segs)
  {
    var front, last := segs[..|segs| - 1], segs[|segs| - 1];
    assert [first] + segs == ([first] + front) + [last];
    JoinAppend([first] + front, last);
    if front == [] {
      assert [first] + front == [first] && segs == [last];
    } else {
      JoinCons(first, front);
    }
  }

  lemma {:induction false} NoLongerWithout(segs: seq<string>)
    ensures |Join(WithoutLeadingEmpty(segs))| <= |Join(segs)|
    ensures Join(WithoutLeadingEmpty(segs)) == Join(segs) <==> |segs| <= 1 || segs[0] != ""
  {
    if |segs| > 1 {
      JoinCons(segs[0], segs[1..]);
      assert [segs[0]] + segs[1..] == segs;
      NoLongerWithout(segs[1..]);
    }
  }

  /** A directory's key is the join of its path without leading empty segments, so the join of its path, as a leaf's
      is, exactly if the first segment is not empty or the only one. */
  lemma DirectoryKey(locale: Locale, keys: seq<RedisKey>, segs: seq<string>)
    requires segs != []
    ensures var found := NodeAt(Tree(locale, keys), segs);
            found.Some? && !found.value.isLeaf ==>
              && found.value.fullKey == Join(WithoutLeadingEmpty(segs))
              && found.value.keyType == "" && found.value.ttl == 0
              && (found.value.fullKey == Join(segs) <==> |segs| == 1 || segs[0] != "")
  {
    BuildWellNamed(keys);
    BuildKeepsPaths(keys, segs);
    FinalizedAt(locale, Build(keys), segs);
    PathIsJoin(segs);
    NoLongerWithout(segs);
  }

  // ---------------------------------------------------------------- equal keys of directories

  predicate NoColons(segs: seq<string>) {
    forall i | 0 <= i < |segs| :: ':' !in segs[i]
  }

  lemma {:induction false} SplitNoColons(key: string)
    ensures NoColons(Split(key))
  {
    if key != "" {
      SplitNoColons(key[..|key| - 1]);
    }
  }

  function AddText(segs: seq<string>, text: string): seq<string>
    requires segs != []
  {
    segs[..|segs| - 1] + [segs[|segs| - 1] + text]
  }

  lemma SplitSnoc(key: string, c: char)
    ensures Split(key + [c]) == AddChar(Split(key), c)
  {
    assert (key + [c])[..|key|] == key;
  }

  lemma AddTextSnoc(segs: seq<string>, text: string, c: char)
    requires segs != [] && c != ':'
    ensures AddText(segs, text + [c]) == AddChar(AddText(segs, text), c)
  {
    assert segs[|segs| - 1] + (text + [c]) == segs[|segs| - 1] + text + [c];
  }

  lemma AddNoText(segs: seq<string>)
    requires segs != []
    ensures AddText(segs, "") == segs
  {
    assert segs[|segs| - 1] + "" == segs[|segs| - 1];
  }

  lemma SplitTextSnoc(front: string, segs: seq<string>, text: string, c: char)
    requires segs != [] && c != ':' && Split(front + text) == AddText(segs, text)
    ensures Split(front + (text + [c])) == AddText(segs, text + [c])
  {
    Associative(front, text, [c]);
    SplitSnoc(front + text, c);
    AddTextSnoc(segs, text, c);
  }

  lemma {:induction false} SplitText(front: string, text: string)
    requires ':' !in text
    ensures Split(front + text) == AddText(Split(front), text)
    decreases |text|
  {
    if text == "" {
      AddNoText(Split(front));
      assert front + "" == front;
    } else {
      var less, c := text[..|text| - 1], text[|text| - 1];
      assert text == less + [c];
      SplitText(front, less);
      SplitTextSnoc(front, Split(front), less, c);
    }
  }

  lemma SplitSegment(key: string, last: string)
    requires ':' !in last
    ensures Split(key + ":" + last) == Split(key) + [last]
  {
    SplitSnoc(key, ':');
    SplitText(key + ":", last);
    assert "" + last == last;
  }

  lemma {:induction false} SplitJoin(segs: seq<string>)
    requires segs != [] && NoColons(segs)
    ensures Split(Join(segs)) == segs
  {
    var front, last := segs[..|segs| - 1], segs[|segs| - 1];
    if front == [] {
      SplitText("", last);
      assert "" + last == last;
    } else {
      SplitJoin(front);
      SplitSegment(Join(front), last);
      assert segs == front + [last];
    }
  }

  lemma {:induction false} WithoutIsSuffix(segs: seq<string>)
    requires NoColons(segs)
    ensures var rest := WithoutLeadingEmpty(segs); NoColons(rest) && (rest != [] ==> rest[0] != "")
  {
    if segs != [] && segs[0] == "" {
      WithoutIsSuffix(segs[1..]);
    }
  }

  lemma {:induction false} JoinEmpty(segs: seq<string>)
    requires segs != [] && segs[0] != ""
    ensures Join(segs) != ""
  {
  }

  lemma PathsAgreeIff(s: seq<string>, t: seq<string>)
    requires NoColons(s) && NoColons(t)
    ensures Join(WithoutLeadingEmpty(s)) == Join(WithoutLeadingEmpty(t))
            <==> WithoutLeadingEmpty(s) == WithoutLeadingEmpty(t)
  {
    var u, v := WithoutLeadingEmpty(s), WithoutLeadingEmpty(t);
    WithoutIsSuffix(s);
    WithoutIsSuffix(t);
    if u != [] {
      JoinEmpty(u);
      SplitJoin(u);
    }
    if v != [] {
      JoinEmpty(v);
      SplitJoin(v);
    }
  }

  lemma PathHasNoColons(locale: Locale, keys: seq<RedisKey>, segs: seq<string>)
    requires segs != [] && NodeAt(Tree(locale, keys), segs).Some?
    ensures NoColons(segs)
  {
    TreeAgreesWithKeys(locale, keys, segs);
    assert KeysUnder(keys, segs) != {};
    var i :| 0 <= i < |keys| && segs <= Split(keys[i].key);
    SplitNoColons(keys[i].key);
  }

  ghost predicate DirectoryAt(level: seq<Node>, segs: seq<string>) {
    segs != [] && NodeAt(level, segs).Some? && !NodeAt(level, segs).value.isLeaf
  }

  /** Two directories have one key exactly if their paths differ in leading empty segments only. */
  lemma DirectoriesShareKeyIff(locale: Locale, keys: seq<RedisKey>, s: seq<string>, t: seq<string>)
    requires DirectoryAt(Tree(locale, keys), s) && DirectoryAt(Tree(locale, keys), t)
    ensures NodeAt(Tree(locale, keys), s).value.fullKey == NodeAt(Tree(locale, keys), t).value.fullKey
            <==> WithoutLeadingEmpty(s) == WithoutLeadingEmpty(t)
  {
    DirectoryKey(locale, keys, s);
    DirectoryKey(locale, keys, t);
    PathHasNoColons(locale, keys, s);
    PathHasNoColons(locale, keys, t);
    PathsAgreeIff(s, t);
  }

  lemma UnderA(keys: seq<RedisKey>)
    requires |keys| == 2 && Split(keys[0].key) == ["a", "x"] && Split(keys[1].key) == ["", "a", "x"]
    ensures keys[0].key in KeysUnder(keys, ["a"]) && keys[1].key in KeysUnder(keys, ["", "a"])
    ensures forall i | 0 <= i < |keys| :: Split(keys[i].key) != ["a"] && Split(keys[i].key) != ["", "a"]
  {
    assert ["a"] <= Split(keys[0].key) && ["", "a"] <= Split(keys[1].key);
  }

  lemma SplitsOfExample()
    ensures Split("a:x") == ["a", "x"] && Split(":a:x") == ["", "a", "x"]
  {
    SplitText("", "a");
    assert Split("a") == ["a"];
    SplitSegment("a", "x");
    SplitSegment("", "a");
    SplitSegment(":a", "x");
    assert "a" + ":" + "x" == "a:x" && "" + ":" + "a" == ":a" && ":a" + ":" + "x" == ":a:x";
  }

  lemma PathsOfExample()
    ensures Join(WithoutLeadingEmpty(["a"])) == "a" && Join(WithoutLeadingEmpty(["", "a"])) == "a"
  {
    assert WithoutLeadingEmpty(["a"]) == ["a"];
    assert ["", "a"][1..] == ["a"];
    assert WithoutLeadingEmpty(["", "a"]) == ["a"];
  }

  lemma DirectoryIsThere(locale: Locale, keys: seq<RedisKey>, segs: seq<string>)
    requires segs != [] && KeysUnder(keys, segs) != {} && forall i | 0 <= i < |keys| :: Split(keys[i].key) != segs
    ensures DirectoryAt(Tree(locale, keys), segs)
    ensures NodeAt(Tree(locale, keys), segs).value.fullKey == Join(WithoutLeadingEmpty(segs))
  {
    TreeAgreesWithKeys(locale, keys, segs);
    DirectoryKey(locale, keys, segs);
  }

  /** The keys "a:x" and ":a:x" lie in two directories, both with the key "a". */
  lemma TwoDirectoriesOneKey(locale: Locale, keyType: string, ttl: int)
    ensures var tree := Tree(locale, [RedisKey("a:x", keyType, ttl), RedisKey(":a:x", keyType, ttl)]);
            && DirectoryAt(tree, ["a"]) && NodeAt(tree, ["a"]).value.fullKey == "a"
            && DirectoryAt(tree, ["", "a"]) && NodeAt(tree, ["", "a"]).value.fullKey == "a"
  {
    var keys := [RedisKey("a:x", keyType, ttl), RedisKey(":a:x", keyType, ttl)];
    SplitsOfExample();
    UnderA(keys);
    DirectoryIsThere(locale, keys, ["a"]);
    DirectoryIsThere(locale, keys, ["", "a"]);
    PathsOfExample();
  }

  /** The path that a node's key is the join of. */
  ghost function KeyPath(level: seq<Node>, segs: seq<string>): (path: seq<string>)
    requires segs != [] && NodeAt(level, segs).Some?
    ensures path != []
  {
    var rest := WithoutLeadingEmpty(segs);
    if NodeAt(level, segs).value.isLeaf then segs else if rest == [] then [""] else rest
  }

  lemma LastOf(keys: seq<RedisKey>, i: nat) returns (k: nat)
    requires i < |keys|
    ensures IsLast(keys, k) && keys[k].key == keys[i].key
    decreases |keys| - i
  {
    if j :| i < j < |keys| && keys[j].key == keys[i].key {
      k := LastOf(keys, j);
    } else {
      k := i;
    }
  }

  lemma LeafKey(locale: Locale, keys: seq<RedisKey>, segs: seq<string>)
    requires segs != []
    ensures var found := NodeAt(Tree(locale, keys), segs);
            found.Some? && found.value.isLeaf ==> found.value.fullKey == Join(segs)
  {
    TreeAgreesWithKeys(locale, keys, segs);
    var found := NodeAt(Tree(locale, keys), segs);
    if found.Some? && found.value.isLeaf {
      var i :| 0 <= i < |keys| && Split(keys[i].key) == segs;
      var k := LastOf(keys, i);
      JoinSplit(keys[k].key);
      assert Split(keys[k].key) == segs;
    }
  }

  lemma NodeKey(locale: Locale, keys: seq<RedisKey>, segs: seq<string>)
    requires segs != [] && NodeAt(Tree(locale, keys), segs).Some?
    ensures NodeAt(Tree(locale, keys), segs).value.fullKey == Join(KeyPath(Tree(locale, keys), segs))
    ensures Split(NodeAt(Tree(locale, keys), segs).value.fullKey) == KeyPath(Tree(locale, keys), segs)
  {
    DirectoryKey(locale, keys, segs);
    LeafKey(locale, keys, segs);
    PathHasNoColons(locale, keys, segs);
    WithoutIsSuffix(segs);
    SplitJoin(KeyPath(Tree(locale, keys), segs));
  }

  /** Any two nodes have one key exactly if their paths agree, leading empty segments of directories aside. */
  lemma NodesShareKeyIff(locale: Locale, keys: seq<RedisKey>, s: seq<string>, t: seq<string>)
    requires s != [] && NodeAt(Tree(locale, keys), s).Some?
    requires t != [] && NodeAt(Tree(locale, keys), t).Some?
    ensures NodeAt(Tree(locale, keys), s).value.fullKey == NodeAt(Tree(locale, keys), t).value.fullKey
            <==> KeyPath(Tree(locale, keys), s) == KeyPath(Tree(locale, keys), t)
  {
    NodeKey(locale, keys, s);
    NodeKey(locale, keys, t);
  }

  lemma LeafIsThere(locale: Locale, keys: seq<RedisKey>, segs: seq<string>, i: nat)
    requires i < |keys| && Split(keys[i].key) == segs
    ensures var found := NodeAt(Tree(locale, keys), segs);
            found.Some? && found.value.isLeaf && found.value.fullKey == Join(segs)
  {
    TreeAgreesWithKeys(locale, keys, segs);
    EmptyIsUnder(keys, segs, i);
    LeafKey(locale, keys, segs);
  }

  lemma SplitOfA()
    ensures Split("a") == ["a"]
  {
    SplitText("", "a");
  }

  /** The key "a" and the directory of ":a:x" have the key "a" both. */
  lemma LeafAndDirectoryOneKey(locale: Locale, keyType: string, ttl: int)
    ensures var tree := Tree(locale, [RedisKey("a", keyType, ttl), RedisKey(":a:x", keyType, ttl)]);
            && NodeAt(tree, ["a"]).Some? && NodeAt(tree, ["a"]).value.isLeaf
            && NodeAt(tree, ["a"]).value.fullKey == "a"
            && DirectoryAt(tree, ["", "a"]) && NodeAt(tree, ["", "a"]).value.fullKey == "a"
  {
    var keys := [RedisKey("a", keyType, ttl), RedisKey(":a:x", keyType, ttl)];
    SplitOfA();
    SplitsOfExample();
    LeafIsThere(locale, keys, ["a"], 0);
    assert ["", "a"] <= Split(keys[1].key);
    assert keys[1].key in KeysUnder(keys, ["", "a"]);
    DirectoryIsThere(locale, keys, ["", "a"]);
    PathsOfExample();
  }

  // ---------------------------------------------------------------- siblings

  lemma {:induction false} SortedInsertDistinct(locale: Locale, s: seq<Node>, x: Node)
    requires DistinctNames(s) && NodeNamed(s, x.name).None?
    ensures DistinctNames(SortedInsert(locale, s, x))
  {
    if s == [] {
      assert [x][..0] == [];
    } else {
      var front, last := s[..|s| - 1], s[|s| - 1];
      if Compare(locale, last, x) <= 0.0 {
        assert (s + [x])[..|s|] == s;
      } else {
        SortedInsertDistinct(locale, front, x);
        SortedInsertNamed(locale, front, x, last.name);
        var put := SortedInsert(locale, front, x);
        assert (put + [last])[..|put|] == put;
      }
    }
  }

  lemma {:induction false} SortDistinct(locale: Locale, s: seq<Node>)
    requires DistinctNames(s)
    ensures DistinctNames(Sort(locale, s))
  {
    if s != [] {
      var front, last := s[..|s| - 1], s[|s| - 1];
      SortDistinct(locale, front);
      SortNamed(locale, front, last.name);
      SortedInsertDistinct(locale, Sort(locale, front), last);
    }
  }

  lemma {:induction false} FinalizeAllWellNamed(locale: Locale, level: seq<Node>)
    requires forall i | 0 <= i < |level| :: WellNamed(level[i].children)
    ensures forall n | n in FinalizeAll(locale, level) :: WellNamed(n.children)
    decreases level, 0
  {
    if level != [] {
      FinalizeAllWellNamed(locale, level[..|level| - 1]);
      FinalizedWellNamed(locale, level[|level| - 1].children);
    }
  }

  lemma {:induction false} FinalizedWellNamed(locale: Locale, level: seq<Node>)
    requires WellNamed(level)
    ensures WellNamed(Sort(locale, FinalizeAll(locale, level)))
    decreases level, 1
  {
    var all := FinalizeAll(locale, level);
    FinalizeAllDistinct(locale, level);
    FinalizeAllWellNamed(locale, level);
    SortDistinct(locale, all);
    SortOrdered(locale, all);
    var sorted := Sort(locale, all);
    forall i | 0 <= i < |sorted|
      ensures WellNamed(sorted[i].children)
    {
      assert sorted[i] in sorted;
    }
  }

  lemma {:induction false} DistinctNamesDiffer(level: seq<Node>)
    ensures DistinctNames(level) <==> forall i, j | 0 <= i < j < |level| :: level[i].name != level[j].name
  {
    if level != [] {
      var front, last := level[..|level| - 1], level[|level| - 1];
      DistinctNamesDiffer(front);
      NamedOrNot(front, last.name);
      assert forall i | 0 <= i < |front| :: front[i] == level[i];
    }
  }

  lemma {:induction false} NamedOrNot(level: seq<Node>, name: string)
    ensures NodeNamed(level, name).None? <==> forall i | 0 <= i < |level| :: level[i].name != name
  {
    if level != [] {
      NamedOrNot(level[..|level| - 1], name);
    }
  }

  /** Siblings of the finished tree have different names, on every level: a path leads to one node at most. */
  lemma TreeIsWellNamed(locale: Locale, keys: seq<RedisKey>)
    ensures WellNamed(Tree(locale, keys))
    ensures var roots := Tree(locale, keys); forall i, j | 0 <= i < j < |roots| :: roots[i].name != roots[j].name
  {
    BuildWellNamed(keys);
    FinalizedWellNamed(locale, Build(keys));
    DistinctNamesDiffer(Tree(locale, keys));
  }

  /** How two nodes of a level may follow each other: directories before leaves, fuller directories before emptier ones,
      and equals by name. */
  predicate MayFollow(locale: Locale, a: Node, b: Node) {
    if a.isLeaf != b.isLeaf then b.isLeaf
    else if !a.isLeaf && a.keyCount != b.keyCount then a.keyCount > b.keyCount
    else locale(a.name) <= locale(b.name)
  }

  ghost predicate InOrder(locale: Locale, level: seq<Node>)
    decreases level
  {
    && (forall i, j | 0 <= i < j < |level| :: MayFollow(locale, level[i], level[j]))
    && forall i | 0 <= i < |level| :: InOrder(locale, level[i].children)
  }

  lemma CompareMeans(locale: Locale, a: Node, b: Node)
    ensures Compare(locale, a, b) <= 0.0 <==> MayFollow(locale, a, b)
  {
  }

  lemma {:induction false} OrderedReads(locale: Locale, level: seq<Node>)
    requires OrderedThroughout(locale, level)
    ensures InOrder(locale, level)
    decreases level
  {
    forall i, j | 0 <= i < j < |level|
      ensures MayFollow(locale, level[i], level[j])
    {
      CompareMeans(locale, level[i], level[j]);
    }
    forall i | 0 <= i < |level|
      ensures InOrder(locale, level[i].children)
    {
      OrderedReads(locale, level[i].children);
    }
  }

  /** So on every level of the tree directories come before leaves, fuller before emptier, and equals by name. */
  lemma LevelsInOrder(locale: Locale, keys: seq<RedisKey>)
    ensures InOrder(locale, Tree(locale, keys))
  {
    TreeIsOrdered(locale, keys);
    OrderedReads(locale, Tree(locale, keys));
  }

  method BuildRedisNamespaceTree(locale: Locale, keys: seq<RedisKey>) returns (roots: seq<Node>)
    ensures roots == Tree(locale, keys)
  {
    if |keys| == 0 {
      return [];
    }
    var root: seq<Node> := [];
    for n := 0 to |keys|
      invariant root == Build(keys[..n])
    {
      root := Insert(root, Split(keys[n].key), "", keys[n]);
      assert keys[..n + 1][..n] == keys[..n];
    }
    assert keys[..|keys|] == keys;
    roots := Sort(locale, FinalizeAll(locale, root));
  }
}
