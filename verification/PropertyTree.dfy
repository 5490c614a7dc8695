/** Property trees of the proof conductor, and their construction by name prefixes. */
module PropertyTree {
  import opened Basics

  /** A property, or a group of properties. */
  datatype Tree = Leaf(name: string) | Node(children: seq<Tree>)

  /** The leaves, left to right. */
  function FindAll(ts: seq<Tree>): seq<string>
    decreases ts
  {
    if ts == [] then [] else Leaves(ts[0]) + FindAll(ts[1..])
  }

  function Leaves(t: Tree): seq<string>
    decreases t
  {
    match t
    case Leaf(name) => [name]
    case Node(children) => FindAll(children)
  }

  lemma {:induction false} FindAllAppend(a: seq<Tree>, b: seq<Tree>)
    ensures FindAll(a + b) == FindAll(a) + FindAll(b)
    decreases |a|
  {
    if a == [] {
      assert a + b == b;
    } else {
      assert (a + b)[1..] == a[1..] + b;
      FindAllAppend(a[1..], b);
    }
  }

  // ---------------------------------------------------------------- grouping by prefixes

  /** A name with the chunks of it not yet used for grouping. */
  datatype Item = Item(chunks: seq<string>, name: string)

  /** Whether an item ends at this level. */
  predicate Ends(it: Item) {
    |it.chunks| == 1
  }

  function Names(items: seq<Item>): seq<string> {
    if items == [] then [] else Names(items[..|items| - 1]) + [items[|items| - 1].name]
  }

  /** The names that end at this level, in order, as leaves. */
  function Done(items: seq<Item>): seq<Tree> {
    if items == [] then [] else
    var last := items[|items| - 1];
    Done(items[..|items| - 1]) + if Ends(last) then [Leaf(last.name)] else []
  }

  /** The first chunks of the others, each once, in order of first appearance. */
  function Keys(items: seq<Item>): seq<string>
    requires forall it :: it in items ==> it.chunks != []
  {
    if items == [] then [] else
    var last := items[|items| - 1];
    var keys := Keys(items[..|items| - 1]);
    if Ends(last) || last.chunks[0] in keys then keys else keys + [last.chunks[0]]
  }

  /** The items of one key, with that chunk removed. */
  function Bucket(items: seq<Item>, key: string): seq<Item>
    requires forall it :: it in items ==> it.chunks != []
  {
    if items == [] then [] else
    var last := items[|items| - 1];
    Bucket(items[..|items| - 1], key)
    + if !Ends(last) && last.chunks[0] == key then [Item(last.chunks[1..], last.name)] else []
  }

  /** The number of chunks left, which every nested group reduces. */
  function ChunkCount(items: seq<Item>): nat {
    if items == [] then 0 else ChunkCount(items[..|items| - 1]) + |items[|items| - 1].chunks|
  }

  lemma {:induction false} BucketIsSmaller(items: seq<Item>, key: string)
    requires forall it :: it in items ==> it.chunks != []
    ensures forall it :: it in Bucket(items, key) ==> it.chunks != []
    ensures ChunkCount(Bucket(items, key)) + |Bucket(items, key)| <= ChunkCount(items)
    ensures key in Keys(items) <==> Bucket(items, key) != []
  {
    if items != [] {
      var n := |items| - 1;
      BucketIsSmaller(items[..n], key);
      var b := Bucket(items, key);
      if b != Bucket(items[..n], key) {
        assert b[..|b| - 1] == Bucket(items[..n], key);
      }
    }
  }

  function Group(items: seq<Item>): seq<Tree>
    requires forall it :: it in items ==> it.chunks != []
    decreases ChunkCount(items), 1, 0
  {
    Done(items) + Groups(items, Keys(items))
  }

  /** One nested group per key. */
  function Groups(items: seq<Item>, keys: seq<string>): seq<Tree>
    requires forall it :: it in items ==> it.chunks != []
    requires forall k :: k in keys ==> k in Keys(items)
    decreases ChunkCount(items), 0, |keys|
  {
    if keys == [] then [] else
    BucketIsSmaller(items, keys[|keys| - 1]);
    Groups(items, keys[..|keys| - 1]) + [Node(Group(Bucket(items, keys[|keys| - 1])))]
  }

  // ---------------------------------------------------------------- the order of entries

  /** No name that ends at this level comes after one that does not. */
  ghost predicate EndsFirst(items: seq<Item>) {
    forall j, i :: 0 <= j < i < |items| && Ends(items[i]) ==> Ends(items[j])
  }

  /** The group of one key of the list. */
  ghost function NodeOf(items: seq<Item>, key: string): (t: Tree)
    ensures t.Node?
  {
    if forall it :: it in items ==> it.chunks != [] then
      BucketIsSmaller(items, key);
      Node(Group(Bucket(items, key)))
    else Node([])
  }

  ghost function MapKeys(keys: seq<string>, node: string -> Tree): seq<Tree> {
    if keys == [] then [] else MapKeys(keys[..|keys| - 1], node) + [node(keys[|keys| - 1])]
  }

  /** The entries each at the first appearance of a name in it, with `node` giving the groups. */
  ghost function ByAppearance(items: seq<Item>, node: string -> Tree): seq<Tree>
    requires forall it :: it in items ==> it.chunks != []
  {
    if items == [] then [] else
    var front, last := items[..|items| - 1], items[|items| - 1];
    ByAppearance(front, node)
    + if Ends(last) then [Leaf(last.name)] else if last.chunks[0] in Keys(front) then [] else [node(last.chunks[0])]
  }

  ghost predicate LeavesFirst(ts: seq<Tree>) {
    forall j, i :: 0 <= j < i < |ts| && ts[i].Leaf? ==> ts[j].Leaf?
  }

  lemma {:induction false} DoneIsLeaves(items: seq<Item>)
    ensures forall i :: 0 <= i < |Done(items)| ==> Done(items)[i].Leaf?
  {
    if items != [] { DoneIsLeaves(items[..|items| - 1]); }
  }

  lemma {:induction false} GroupsAreMapped(items: seq<Item>, keys: seq<string>)
    requires forall it :: it in items ==> it.chunks != []
    requires forall k :: k in keys ==> k in Keys(items)
    ensures Groups(items, keys) == MapKeys(keys, k => NodeOf(items, k))
    decreases |keys|
  {
    if keys != [] { GroupsAreMapped(items, keys[..|keys| - 1]); }
  }

  lemma {:induction false} MappedAreNodes(keys: seq<string>, node: string -> Tree)
    requires forall k :: node(k).Node?
    ensures |MapKeys(keys, node)| == |keys|
    ensures forall i :: 0 <= i < |keys| ==> MapKeys(keys, node)[i].Node?
  {
    if keys != [] { MappedAreNodes(keys[..|keys| - 1], node); }
  }

  /** The code lists the names that end here before every group. */
  lemma GroupLeavesFirst(items: seq<Item>)
    requires forall it :: it in items ==> it.chunks != []
    ensures LeavesFirst(Group(items))
  {
    DoneIsLeaves(items);
    GroupsAreMapped(items, Keys(items));
    MappedAreNodes(Keys(items), k => NodeOf(items, k));
  }

  lemma {:induction false} NoKeysIffAllEnd(items: seq<Item>)
    requires forall it :: it in items ==> it.chunks != []
    ensures Keys(items) == [] <==> forall i :: 0 <= i < |items| ==> Ends(items[i])
  {
    if items != [] {
      var front := items[..|items| - 1];
      NoKeysIffAllEnd(front);
      assert forall i :: 0 <= i < |front| ==> items[i] == front[i];
    }
  }

  lemma EndsFirstStep(items: seq<Item>)
    requires items != []
    ensures var front, last := items[..|items| - 1], items[|items| - 1];
            EndsFirst(items) <==> EndsFirst(front) && (Ends(last) ==> forall i :: 0 <= i < |front| ==> Ends(front[i]))
  {
    var front := items[..|items| - 1];
    assert forall i :: 0 <= i < |front| ==> items[i] == front[i];
  }

  ghost predicate AllLeaves(ts: seq<Tree>) {
    forall i :: 0 <= i < |ts| ==> ts[i].Leaf?
  }

  lemma LeavesFirstStep(ts: seq<Tree>, t: Tree)
    ensures AllLeaves(ts + [t]) <==> AllLeaves(ts) && t.Leaf?
    ensures LeavesFirst(ts + [t]) <==> LeavesFirst(ts) && (t.Leaf? ==> AllLeaves(ts))
  {
    var more := ts + [t];
    assert forall i :: 0 <= i < |ts| ==> more[i] == ts[i];
    assert more[|ts|] == t;
  }

  lemma {:induction false} AppearanceOrder(items: seq<Item>, node: string -> Tree)
    requires forall it :: it in items ==> it.chunks != []
    requires forall k :: node(k).Node?
    ensures var ts := ByAppearance(items, node);
            && (AllLeaves(ts) <==> Keys(items) == [])
            && (LeavesFirst(ts) <==> EndsFirst(items))
  {
    if items != [] {
      var front, last := items[..|items| - 1], items[|items| - 1];
      AppearanceOrder(front, node);
      NoKeysIffAllEnd(front);
      EndsFirstStep(items);
      var before := ByAppearance(front, node);
      if Ends(last) {
        LeavesFirstStep(before, Leaf(last.name));
      } else if last.chunks[0] !in Keys(front) {
        LeavesFirstStep(before, node(last.chunks[0]));
      } else {
        assert before + [] == before;
      }
    }
  }

  lemma MapOneMore(keys: seq<string>, key: string, node: string -> Tree)
    ensures MapKeys(keys + [key], node) == MapKeys(keys, node) + [node(key)]
  {
    assert (keys + [key])[..|keys|] == keys;
  }

  lemma {:induction false} AppearanceIsGroup(items: seq<Item>, node: string -> Tree)
    requires forall it :: it in items ==> it.chunks != []
    requires EndsFirst(items)
    ensures ByAppearance(items, node) == Done(items) + MapKeys(Keys(items), node)
  {
    if items != [] {
      var front, last := items[..|items| - 1], items[|items| - 1];
      EndsFirstStep(items);
      NoKeysIffAllEnd(front);
      AppearanceIsGroup(front, node);
      var leaves, groups := Done(front), MapKeys(Keys(front), node);
      if Ends(last) {
        assert groups == [];
        assert ByAppearance(items, node) == (leaves + []) + [Leaf(last.name)] == (leaves + [Leaf(last.name)]) + [];
      } else if last.chunks[0] !in Keys(front) {
        MapOneMore(Keys(front), last.chunks[0], node);
        Regroup(leaves, groups, [node(last.chunks[0])]);
        assert Done(items) == leaves + [] == leaves;
      } else {
        assert ByAppearance(items, node) == (leaves + groups) + [] == leaves + groups;
        assert Done(items) == leaves + [] == leaves;
      }
    }
  }

  /**
   The entries come out in order of first appearance exactly when no name that ends at this level
   comes after one that does not.
   */
  lemma AppearanceOrderIffEndsFirst(items: seq<Item>)
    requires forall it :: it in items ==> it.chunks != []
    ensures Group(items) == ByAppearance(items, k => NodeOf(items, k)) <==> EndsFirst(items)
  {
    var node := k => NodeOf(items, k);
    GroupsAreMapped(items, Keys(items));
    if EndsFirst(items) {
      AppearanceIsGroup(items, node);
    } else {
      AppearanceOrder(items, node);
      GroupLeavesFirst(items);
    }
  }

  /** What one more name adds. */
  lemma OneMore(items: seq<Item>, it: Item, key: string)
    requires it.chunks != [] && forall x :: x in items ==> x.chunks != []
    ensures Done(items + [it]) == Done(items) + if Ends(it) then [Leaf(it.name)] else []
    ensures Keys(items + [it])
         == if Ends(it) || it.chunks[0] in Keys(items) then Keys(items) else Keys(items) + [it.chunks[0]]
    ensures Bucket(items + [it], key)
         == Bucket(items, key) + if !Ends(it) && it.chunks[0] == key then [Item(it.chunks[1..], it.name)] else []
  {
    assert (items + [it])[..|items|] == items;
  }

  lemma ExampleBucket()
    ensures Group([Item(["x"], "a_x"), Item(["y"], "a_y")]) == [Leaf("a_x"), Leaf("a_y")]
  {
    var x, y := Item(["x"], "a_x"), Item(["y"], "a_y");
    OneMore([], x, "");
    OneMore([x], y, "");
    assert [] + [x] == [x] && [x] + [y] == [x, y];
  }

  /** What one more name of two chunks adds. */
  lemma OneMorePair(items: seq<Item>, key: string, rest: string, name: string)
    requires forall x :: x in items ==> x.chunks != []
    ensures Done(items + [Item([key, rest], name)]) == Done(items)
    ensures Keys(items + [Item([key, rest], name)]) == if key in Keys(items) then Keys(items) else Keys(items) + [key]
    ensures Bucket(items + [Item([key, rest], name)], key) == Bucket(items, key) + [Item([rest], name)]
  {
    OneMore(items, Item([key, rest], name), key);
    assert [key, rest][1..] == [rest];
    assert Done(items) + [] == Done(items);
  }

  lemma ExamplePair(key: string, x: string, y: string, m: string, n: string)
    ensures var pair := [Item([key, x], m), Item([key, y], n)];
            && Done(pair) == [] && Keys(pair) == [key]
            && Bucket(pair, key) == [Item([x], m), Item([y], n)]
  {
    OneMorePair([], key, x, m);
    assert [] + [Item([key, x], m)] == [Item([key, x], m)];
    OneMorePair([Item([key, x], m)], key, y, n);
    assert [Item([key, x], m)] + [Item([key, y], n)] == [Item([key, x], m), Item([key, y], n)];
  }

  lemma ExampleParts(key: string, x: string, y: string, m: string, n: string, b: string)
    ensures var items := [Item([key, x], m), Item([key, y], n), Item([b], b)];
            && Done(items) == [Leaf(b)] && Keys(items) == [key]
            && Bucket(items, key) == [Item([x], m), Item([y], n)]
  {
    var pair := [Item([key, x], m), Item([key, y], n)];
    ExamplePair(key, x, y, m, n);
    OneMore(pair, Item([b], b), key);
    assert pair + [Item([b], b)] == [Item([key, x], m), Item([key, y], n), Item([b], b)];
  }

  /** The source's own example, for which its comment puts the group first. */
  lemma CommentExample()
    ensures Group([Item(["a", "x"], "a_x"), Item(["a", "y"], "a_y"), Item(["b"], "b")])
         == [Leaf("b"), Node([Leaf("a_x"), Leaf("a_y")])]
  {
    var items := [Item(["a", "x"], "a_x"), Item(["a", "y"], "a_y"), Item(["b"], "b")];
    ExampleParts("a", "x", "y", "a_x", "a_y", "b");
    ExampleBucket();
    GroupsAreMapped(items, ["a"]);
    assert MapKeys(["a"], k => NodeOf(items, k)) == [NodeOf(items, "a")] by { assert ["a"][..0] == []; }
  }

  // ---------------------------------------------------------------- nothing is lost

  lemma {:induction false} KeysDistinct(items: seq<Item>)
    requires forall it :: it in items ==> it.chunks != []
    ensures Distinct(Keys(items))
  {
    if items != [] { KeysDistinct(items[..|items| - 1]); }
  }

  /** The names in the buckets of the given keys. */
  function BucketNames(items: seq<Item>, keys: seq<string>): multiset<string>
    requires forall it :: it in items ==> it.chunks != []
    decreases |keys|
  {
    if keys == [] then multiset{}
    else BucketNames(items, keys[..|keys| - 1]) + multiset(Names(Bucket(items, keys[|keys| - 1])))
  }

  lemma NamesAppend(items: seq<Item>, it: Item)
    ensures Names(items + [it]) == Names(items) + [it.name]
  {
    assert (items + [it])[..|items|] == items;
  }

  lemma BucketStep(items: seq<Item>, key: string)
    requires items != [] && (forall it :: it in items ==> it.chunks != [])
    ensures var last := items[|items| - 1];
            multiset(Names(Bucket(items, key))) == multiset(Names(Bucket(items[..|items| - 1], key)))
              + if !Ends(last) && last.chunks[0] == key then multiset{last.name} else multiset{}
  {
    var last, b := items[|items| - 1], Bucket(items[..|items| - 1], key);
    if !Ends(last) && last.chunks[0] == key {
      NamesAppend(b, Item(last.chunks[1..], last.name));
      assert Bucket(items, key) == b + [Item(last.chunks[1..], last.name)];
    } else {
      assert Bucket(items, key) == b;
    }
  }

  /** What an item adds to the buckets of `keys`. */
  function Added(it: Item, keys: seq<string>): multiset<string>
    requires it.chunks != []
  {
    if !Ends(it) && it.chunks[0] in keys then multiset{it.name} else multiset{}
  }

  /** An item adds its name to the bucket of its key and to no other. */
  lemma {:induction false} BucketNamesStep(items: seq<Item>, keys: seq<string>)
    requires items != [] && (forall it :: it in items ==> it.chunks != []) && Distinct(keys)
    ensures BucketNames(items, keys) == BucketNames(items[..|items| - 1], keys) + Added(items[|items| - 1], keys)
    decreases |keys|
  {
    if keys != [] {
      var m := |keys| - 1;
      BucketNamesStep(items, keys[..m]);
      BucketStep(items, keys[m]);
      AddedSplits(items[|items| - 1], keys);
    }
  }

  lemma AddedSplits(it: Item, keys: seq<string>)
    requires it.chunks != [] && keys != [] && Distinct(keys)
    ensures Added(it, keys) == Added(it, keys[..|keys| - 1])
              + if !Ends(it) && it.chunks[0] == keys[|keys| - 1] then multiset{it.name} else multiset{}
  {
    var m := |keys| - 1;
    assert keys == keys[..m] + [keys[m]];
    assert keys[m] !in keys[..m];
  }

  lemma DoneStep(items: seq<Item>)
    requires items != []
    ensures var last := items[|items| - 1];
            FindAll(Done(items)) == FindAll(Done(items[..|items| - 1])) + if Ends(last) then [last.name] else []
  {
    var last, before := items[|items| - 1], Done(items[..|items| - 1]);
    if Ends(last) {
      assert Done(items) == before + [Leaf(last.name)];
      FindAllAppend(before, [Leaf(last.name)]);
      LeafAlone(last.name);
    } else {
      assert Done(items) == before;
    }
  }

  lemma KeysStep(items: seq<Item>)
    requires items != [] && (forall it :: it in items ==> it.chunks != [])
    ensures var last, before := items[|items| - 1], items[..|items| - 1];
            BucketNames(items, Keys(items)) == BucketNames(before, Keys(before))
              + if Ends(last) then multiset{} else multiset{last.name}
  {
    var last, before := items[|items| - 1], items[..|items| - 1];
    KeysDistinct(items);
    BucketNamesStep(items, Keys(items));
    if !Ends(last) && last.chunks[0] !in Keys(before) { NewKeyIsEmpty(before, Keys(before), last.chunks[0]); }
  }

  /** Every name either ends here or is in exactly one bucket. */
  lemma {:induction false} Partition(items: seq<Item>)
    requires forall it :: it in items ==> it.chunks != []
    ensures multiset(FindAll(Done(items))) + BucketNames(items, Keys(items)) == multiset(Names(items))
  {
    if items != [] {
      var n := |items| - 1;
      var last, before := items[n], items[..n];
      Partition(before);
      DoneStep(items);
      KeysStep(items);
      assert Names(items) == Names(before) + [last.name];
    }
  }

  lemma LeafAlone(name: string)
    ensures FindAll([Leaf(name)]) == [name]
  {
    assert [Leaf(name)][1..] == [];
  }

  lemma NewKeyIsEmpty(items: seq<Item>, keys: seq<string>, key: string)
    requires (forall it :: it in items ==> it.chunks != []) && key !in Keys(items)
    ensures BucketNames(items, keys + [key]) == BucketNames(items, keys)
  {
    BucketIsSmaller(items, key);
    assert (keys + [key])[..|keys|] == keys;
  }

  /** Grouping by prefixes permutes the names: none is lost or repeated. */
  lemma {:induction false} GroupPermutes(items: seq<Item>)
    requires forall it :: it in items ==> it.chunks != []
    ensures multiset(FindAll(Group(items))) == multiset(Names(items))
    decreases ChunkCount(items), 1, 0
  {
    GroupsPermute(items, Keys(items));
    FindAllAppend(Done(items), Groups(items, Keys(items)));
    Partition(items);
  }

  lemma {:induction false} GroupsPermute(items: seq<Item>, keys: seq<string>)
    requires forall it :: it in items ==> it.chunks != []
    requires forall k :: k in keys ==> k in Keys(items)
    ensures multiset(FindAll(Groups(items, keys))) == BucketNames(items, keys)
    decreases ChunkCount(items), 0, |keys|
  {
    if keys != [] {
      var m := |keys| - 1;
      var b := Bucket(items, keys[m]);
      BucketIsSmaller(items, keys[m]);
      GroupsPermute(items, keys[..m]);
      GroupPermutes(b);
      FindAllAppend(Groups(items, keys[..m]), [Node(Group(b))]);
      NodeAlone(Group(b));
    }
  }

  lemma NodeAlone(ts: seq<Tree>)
    ensures FindAll([Node(ts)]) == FindAll(ts)
  {
    assert [Node(ts)][1..] == [];
  }

  // ---------------------------------------------------------------- groups share prefixes

  /**
   A group below `prefix`: first the names that are `prefix` and one more chunk, then the nested
   groups, one per next chunk, none empty.  `chunk` gives the chunks of a whole name.
   */
  ghost predicate Shaped(ts: seq<Tree>, prefix: seq<string>, chunk: string -> seq<string>)
    decreases ts, 1
  {
    exists m: nat, keys: seq<string> :: ShapedWith(ts, prefix, chunk, m, keys)
  }

  ghost predicate ShapedWith(ts: seq<Tree>, prefix: seq<string>, chunk: string -> seq<string>, m: nat,
                             keys: seq<string>)
    decreases ts, 0
  {
    && m + |keys| == |ts| && Distinct(keys)
    && (forall i :: 0 <= i < m ==> ts[i].Leaf? && EndsUnder(ts[i].name, prefix, chunk))
    && (forall i :: m <= i < |ts| ==>
          && ts[i].Node? && ts[i].children != []
          && Shaped(ts[i].children, prefix + [keys[i - m]], chunk))
  }

  predicate EndsUnder(name: string, prefix: seq<string>, chunk: string -> seq<string>) {
    |chunk(name)| == |prefix| + 1 && prefix <= chunk(name)
  }

  lemma {:induction false} DoneEndsUnder(items: seq<Item>, prefix: seq<string>, chunk: string -> seq<string>)
    requires forall it :: it in items ==> it.chunks != [] && chunk(it.name) == prefix + it.chunks
    ensures forall i :: 0 <= i < |Done(items)| ==> Done(items)[i].Leaf? && EndsUnder(Done(items)[i].name, prefix, chunk)
  {
    if items != [] { DoneEndsUnder(items[..|items| - 1], prefix, chunk); }
  }

  lemma {:induction false} BucketUnder(items: seq<Item>, key: string, prefix: seq<string>, chunk: string -> seq<string>)
    requires forall it :: it in items ==> it.chunks != [] && chunk(it.name) == prefix + it.chunks
    ensures forall it :: it in Bucket(items, key) ==> chunk(it.name) == prefix + [key] + it.chunks
  {
    if items != [] {
      var last := items[|items| - 1];
      BucketUnder(items[..|items| - 1], key, prefix, chunk);
      assert last.chunks == [last.chunks[0]] + last.chunks[1..];
    }
  }

  /** Some name or key comes of every item, so no group is empty. */
  lemma GroupNotEmpty(items: seq<Item>)
    requires items != [] && forall it :: it in items ==> it.chunks != []
    ensures Group(items) != []
  {
    GroupPermutes(items);
    assert items[|items| - 1].name in multiset(Names(items));
  }

  ghost predicate GroupOf(t: Tree, prefix: seq<string>, key: string, chunk: string -> seq<string>) {
    t.Node? && t.children != [] && Shaped(t.children, prefix + [key], chunk)
  }

  ghost predicate GroupsOf(ts: seq<Tree>, prefix: seq<string>, keys: seq<string>, chunk: string -> seq<string>) {
    |ts| == |keys| && forall i :: 0 <= i < |ts| ==> GroupOf(ts[i], prefix, keys[i], chunk)
  }

  lemma GroupsOfAppend(ts: seq<Tree>, t: Tree, prefix: seq<string>, keys: seq<string>, key: string,
                       chunk: string -> seq<string>)
    requires GroupsOf(ts, prefix, keys, chunk) && GroupOf(t, prefix, key, chunk)
    ensures GroupsOf(ts + [t], prefix, keys + [key], chunk)
  {}

  lemma {:induction false} GroupsShaped(items: seq<Item>, keys: seq<string>, prefix: seq<string>,
                                        chunk: string -> seq<string>)
    requires forall it :: it in items ==> it.chunks != [] && chunk(it.name) == prefix + it.chunks
    requires forall k :: k in keys ==> k in Keys(items)
    ensures GroupsOf(Groups(items, keys), prefix, keys, chunk)
    decreases ChunkCount(items), 0, |keys|
  {
    if keys != [] {
      var m := |keys| - 1;
      GroupsShaped(items, keys[..m], prefix, chunk);
      LastGroupShaped(items, keys[m], prefix, chunk);
      GroupsOfAppend(Groups(items, keys[..m]), Node(Group(Bucket(items, keys[m]))), prefix, keys[..m], keys[m], chunk);
      assert keys[..m] + [keys[m]] == keys;
    }
  }

  lemma {:induction false} LastGroupShaped(items: seq<Item>, key: string, prefix: seq<string>,
                                           chunk: string -> seq<string>)
    requires forall it :: it in items ==> it.chunks != [] && chunk(it.name) == prefix + it.chunks
    requires key in Keys(items)
    ensures forall it :: it in Bucket(items, key) ==> it.chunks != []
    ensures GroupOf(Node(Group(Bucket(items, key))), prefix, key, chunk)
    decreases ChunkCount(items), 0, 0
  {
    var b := Bucket(items, key);
    BucketIsSmaller(items, key);
    BucketUnder(items, key, prefix, chunk);
    GroupShaped(b, prefix + [key], chunk);
    GroupNotEmpty(b);
  }

  /** All names in a nested group share the chunks leading to it, and different groups differ there. */
  lemma {:induction false} GroupShaped(items: seq<Item>, prefix: seq<string>, chunk: string -> seq<string>)
    requires forall it :: it in items ==> it.chunks != [] && chunk(it.name) == prefix + it.chunks
    ensures Shaped(Group(items), prefix, chunk)
    decreases ChunkCount(items), 1, 0
  {
    DoneEndsUnder(items, prefix, chunk);
    GroupsShaped(items, Keys(items), prefix, chunk);
    KeysDistinct(items);
    LeavesThenGroups(Done(items), Groups(items, Keys(items)), prefix, Keys(items), chunk);
  }

  lemma LeavesThenGroups(leaves: seq<Tree>, groups: seq<Tree>, prefix: seq<string>, keys: seq<string>,
                         chunk: string -> seq<string>)
    requires forall i :: 0 <= i < |leaves| ==> leaves[i].Leaf? && EndsUnder(leaves[i].name, prefix, chunk)
    requires GroupsOf(groups, prefix, keys, chunk) && Distinct(keys)
    ensures Shaped(leaves + groups, prefix, chunk)
  {
    var ts, m := leaves + groups, |leaves|;
    forall i | m <= i < |ts| ensures GroupOf(ts[i], prefix, keys[i - m], chunk) {
      assert ts[i] == groups[i - m];
    }
    assert ShapedWith(ts, prefix, chunk, m, keys);
  }

  /** What the shape means for the names: those in a group all begin with the group's prefix. */
  lemma {:induction false} ShapedShares(ts: seq<Tree>, prefix: seq<string>, chunk: string -> seq<string>, name: string)
    requires Shaped(ts, prefix, chunk) && name in FindAll(ts)
    ensures prefix <= chunk(name)
    decreases ts
  {
    var i := LeafIsIn(ts, name);
    var m: nat, keys: seq<string> :| ShapedWith(ts, prefix, chunk, m, keys);
    if ts[i].Node? {
      ShapedShares(ts[i].children, prefix + [keys[i - m]], chunk, name);
    }
  }

  lemma {:induction false} LeafIsIn(ts: seq<Tree>, name: string) returns (i: nat)
    requires name in FindAll(ts)
    ensures i < |ts| && name in Leaves(ts[i])
    decreases |ts|
  {
    if name in Leaves(ts[0]) { i := 0; } else { i := LeafIsIn(ts[1..], name); i := i + 1; }
  }

  // ---------------------------------------------------------------- the loops

  /** The pass that fills the dictionary; `keys` is its insertion order. */
  method FillBuckets(items: seq<Item>) returns (done: seq<Tree>, keys: seq<string>, buckets: map<string, seq<Item>>)
    requires forall it :: it in items ==> it.chunks != []
    ensures done == Done(items) && keys == Keys(items)
    ensures forall k :: k in keys ==> k in buckets && buckets[k] == Bucket(items, k)
  {
    done, keys, buckets := [], [], map[];
    for i := 0 to |items|
      invariant done == Done(items[..i]) && keys == Keys(items[..i])
      invariant forall k :: k in buckets <==> k in keys
      invariant forall k :: k in buckets ==> buckets[k] == Bucket(items[..i], k)
    {
      var it := items[i];
      assert items[..i + 1][..i] == items[..i];
      if |it.chunks| == 1 {
        done := done + [Leaf(it.name)];
      } else if it.chunks[0] !in buckets {
        BucketIsSmaller(items[..i], it.chunks[0]);
        buckets := buckets[it.chunks[0] := [Item(it.chunks[1..], it.name)]];
        keys := keys + [it.chunks[0]];
      } else {
        buckets := buckets[it.chunks[0] := buckets[it.chunks[0]] + [Item(it.chunks[1..], it.name)]];
      }
    }
    assert items[..|items|] == items;
  }

  lemma GroupsStep(items: seq<Item>, keys: seq<string>, j: nat)
    requires forall it :: it in items ==> it.chunks != []
    requires j < |keys| && forall k :: k in keys ==> k in Keys(items)
    ensures forall it :: it in Bucket(items, keys[j]) ==> it.chunks != []
    ensures ChunkCount(Bucket(items, keys[j])) < ChunkCount(items)
    ensures Groups(items, keys[..j + 1]) == Groups(items, keys[..j]) + [Node(Group(Bucket(items, keys[j])))]
  {
    BucketIsSmaller(items, keys[j]);
    assert keys[..j + 1][..j] == keys[..j];
  }

  /** The grouping as the conductor does it: fill a dictionary, then append a group per entry. */
  method GroupItems(items: seq<Item>) returns (done: seq<Tree>)
    requires forall it :: it in items ==> it.chunks != []
    ensures done == Group(items)
    decreases ChunkCount(items)
  {
    var keys, buckets;
    done, keys, buckets := FillBuckets(items);
    for j := 0 to |keys|
      invariant done == Done(items) + Groups(items, keys[..j])
    {
      GroupsStep(items, keys, j);
      var group := GroupItems(buckets[keys[j]]);
      Regroup(Done(items), Groups(items, keys[..j]), [Node(group)]);
      done := done + [Node(group)];
    }
    assert keys[..|keys|] == keys;
  }
}
