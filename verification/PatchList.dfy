/** site/common.js: laying fresh rows over the ones on screen. */
module PatchLists {
  import opened Results

  /** A child of the list: its data-key (empty if it has none), its node name, and what it shows. */
  class Element {
    const key: string
    const nodeName: string
    var content: string

    constructor (key: string, nodeName: string, content: string)
      ensures this.key == key && this.nodeName == nodeName && this.content == content
    {
      this.key := key;
      this.nodeName := nodeName;
      this.content := content;
    }
  }

  ghost predicate Different(list: seq<Element>) {
    forall i, j | 0 <= i < j < |list| :: list[i] != list[j]
  }

  /** The last child with that key: what a map built by inserting every child in turn holds. */
  ghost function LastWith(list: seq<Element>, key: string): (r: Option<Element>)
    ensures r.Some? ==> r.value in list && r.value.key == key
    ensures r.None? ==> forall e | e in list :: e.key != key
  {
    if list == [] then None
    else if list[|list| - 1].key == key then Some(list[|list| - 1])
    else LastWith(list[..|list| - 1], key)
  }

  ghost predicate Matches(children: seq<Element>, row: Element) {
    && row.key != ""
    && LastWith(children, row.key).Some?
    && LastWith(children, row.key).value.nodeName == row.nodeName
  }

  ghost predicate TakenEarlier(children: seq<Element>, newer: seq<Element>, i: nat, key: string)
    requires i <= |newer|
  {
    exists j :: 0 <= j < i && newer[j].key == key && Matches(children, newer[j])
  }

  /** The child that ends up in place `i`: the old child with the row's key and node name, if no
      earlier row took it, and the row itself otherwise. */
  ghost function Placed(children: seq<Element>, newer: seq<Element>, i: nat): Element
    requires i < |newer|
  {
    if Matches(children, newer[i]) && !TakenEarlier(children, newer, i, newer[i].key)
    then LastWith(children, newer[i].key).value
    else newer[i]
  }

  /** No element is placed twice. */
  lemma PlacedOnce(children: seq<Element>, newer: seq<Element>, i: nat, j: nat)
    requires Different(newer) && (forall e | e in children :: e !in newer) && i < j < |newer|
    ensures Placed(children, newer, i) != Placed(children, newer, j)
  {
    assert newer[i] in newer && newer[j] in newer;
    if Matches(children, newer[i]) && newer[i].key == newer[j].key {
      assert TakenEarlier(children, newer, j, newer[j].key);
    }
  }

  ghost predicate Keeps(kept: map<string, Element>, children: seq<Element>) {
    && (forall k :: k in kept <==> k != "" && LastWith(children, k).Some?)
    && (forall k | k in kept :: kept[k] == LastWith(children, k).value)
  }

  /** What is left of the map once the first `i` rows took theirs. */
  ghost predicate Leaves(kept: map<string, Element>, children: seq<Element>, newer: seq<Element>, i: nat)
    requires i <= |newer|
  {
    && (forall k :: k in kept <==> k != "" && LastWith(children, k).Some? && !TakenEarlier(children, newer, i, k))
    && (forall k | k in kept :: kept[k] == LastWith(children, k).value)
  }

  lemma TakenNext(children: seq<Element>, newer: seq<Element>, i: nat, key: string)
    requires i < |newer|
    ensures TakenEarlier(children, newer, i + 1, key)
        <==> TakenEarlier(children, newer, i, key) || (newer[i].key == key && Matches(children, newer[i]))
  {
  }

  lemma LeavesNext(kept: map<string, Element>, children: seq<Element>, newer: seq<Element>, i: nat)
    requires i < |newer| && Leaves(kept, children, newer, i)
    ensures var row := newer[i];
            if row.key in kept && kept[row.key].nodeName == row.nodeName
            then Placed(children, newer, i) == kept[row.key] && Leaves(kept - {row.key}, children, newer, i + 1)
            else Placed(children, newer, i) == row && Leaves(kept, children, newer, i + 1)
  {
    hide TakenEarlier;
    forall k ensures TakenEarlier(children, newer, i + 1, k)
                 <==> TakenEarlier(children, newer, i, k) || (newer[i].key == k && Matches(children, newer[i]))
    {
      TakenNext(children, newer, i, k);
    }
  }

  // ----- Editing the children in place

  function Without(list: seq<Element>, e: Element): (r: seq<Element>)
    ensures forall x | x in r :: x in list
  {
    if list == [] then [] else if list[0] == e then list[1..] else [list[0]] + Without(list[1..], e)
  }

  lemma {:induction false} WithoutKeepsPrefix(list: seq<Element>, e: Element, n: nat)
    requires n <= |list| && e !in list[..n]
    ensures |Without(list, e)| >= n && Without(list, e)[..n] == list[..n]
    ensures Without(list, e) == list[..n] + Without(list[n..], e)
  {
    if n > 0 {
      assert list[0] != e by {
        assert list[..n][0] == list[0];
      }
      assert e !in list[1..][..n - 1] by {
        assert list[1..][..n - 1] == list[..n][1..];
      }
      WithoutKeepsPrefix(list[1..], e, n - 1);
      assert list[1..][n - 1..] == list[n..];
      assert list[..n] == [list[0]] + list[1..][..n - 1];
    } else {
      assert list[..n] == [] && list[n..] == list;
    }
  }

  class Box {
    var children: seq<Element>

    constructor (children: seq<Element>)
      ensures this.children == children
    {
      this.children := children;
    }

    /** insertBefore: a node already in the list moves, and the reference is the node that was at `index`. */
    method InsertBefore(row: Element, index: nat)
      requires index <= |children| && row !in children[..index] && (index < |children| ==> children[index] != row)
      modifies this
      ensures |children| > index
      ensures children[..index + 1] == old(children[..index]) + [row]
    {
      WithoutKeepsPrefix(children, row, index);
      var rest := Without(children, row);
      children := rest[..index] + [row] + rest[index..];
    }

    method Patch(newer: seq<Element>)
      requires Different(newer) && forall e | e in children :: e !in newer
      modifies this, children
      ensures |children| == |newer| && Different(children)
      // Old nodes stay wherever key and node name allow it ...
      ensures forall i | 0 <= i < |newer| :: children[i] == Placed(old(children), newer, i)
      // ... and the list shows exactly the fresh rows, in their order.
      ensures forall i | 0 <= i < |newer| ::
                children[i].key == newer[i].key && children[i].content == old(newer[i].content)
    {
      var before := children;
      var kept := KeepByKey();
      var rows := PatchRows(newer, kept);
      forall i, j | 0 <= i < j < |rows| ensures rows[i] != rows[j] {
        PlacedOnce(before, newer, i, j);
      }
      Arrange(rows);
    }

    method KeepByKey() returns (kept: map<string, Element>)
      ensures Keeps(kept, children)
    {
      kept := map[];
      for i := 0 to |children|
        invariant Keeps(kept, children[..i])
      {
        var child := children[i];
        assert children[..i + 1][..i] == children[..i];
        if child.key != "" {
          kept := kept[child.key := child];
        }
      }
      assert children[..|children|] == children;
    }

    method PatchRows(newer: seq<Element>, keep: map<string, Element>) returns (rows: seq<Element>)
      requires Different(newer) && (forall e | e in children :: e !in newer) && Keeps(keep, children)
      modifies children
      ensures |rows| == |newer| && forall i | 0 <= i < |newer| :: rows[i] == Placed(children, newer, i)
      ensures forall i | 0 <= i < |newer| :: rows[i].key == newer[i].key && rows[i].content == old(newer[i].content)
    {
      hide LastWith, TakenEarlier, Matches;
      var kept := keep;
      rows := [];
      NothingTaken(children, newer, kept);
      for i := 0 to |newer|
        invariant Leaves(kept, children, newer, i)
        invariant |rows| == i && forall j | 0 <= j < i :: rows[j] == Placed(children, newer, j)
        invariant forall j | 0 <= j < i :: rows[j].key == newer[j].key && rows[j].content == old(newer[j].content)
        invariant forall j | 0 <= j < |newer| :: newer[j].content == old(newer[j].content)
      {
        var row := newer[i];
        LeavesNext(kept, children, newer, i);
        forall j | 0 <= j < i ensures rows[j] != Placed(children, newer, i) {
          PlacedOnce(children, newer, j, i);
        }
        if row.key in kept && kept[row.key].nodeName == row.nodeName {
          var reused := kept[row.key];
          KeptIsChild(children, row.key);
          kept := kept - {row.key};
          reused.content := row.content;
          rows := rows + [reused];
        } else {
          rows := rows + [row];
        }
      }
    }

    /** In order, moving what moved; the rest leaves. */
    method Arrange(rows: seq<Element>)
      requires Different(rows)
      modifies this
      ensures children == rows
    {
      for index := 0 to |rows|
        invariant |children| >= index && children[..index] == rows[..index]
      {
        assert rows[index] !in rows[..index];
        if index >= |children| || children[index] != rows[index] {
          InsertBefore(rows[index], index);
        }
        assert rows[..index + 1] == rows[..index] + [rows[index]];
      }
      while |children| > |rows|
        invariant |children| >= |rows| && children[..|rows|] == rows
      {
        children := children[..|children| - 1];
      }
    }
  }

  lemma NothingTaken(children: seq<Element>, newer: seq<Element>, kept: map<string, Element>)
    requires Keeps(kept, children)
    ensures Leaves(kept, children, newer, 0)
  {
  }

  lemma KeptIsChild(children: seq<Element>, key: string)
    requires LastWith(children, key).Some?
    ensures LastWith(children, key).value in children && LastWith(children, key).value.key == key
  {
  }
}
