/** The favourites list of app.py: an ordered list of city names that is
    added to only when the name is absent, removed from with Python's
    `list.remove`, and kept in a store that each save overwrites whole. */
module Favorites {
  import opened Optional

  /** No name occurs twice. */
  predicate NoDup<T(==)>(s: seq<T>)
  {
    forall i, j :: 0 <= i < j < |s| ==> s[i] != s[j]
  }

  /** `if x not in lst: lst.append(x)`. */
  function AddIfAbsent<T(==)>(s: seq<T>, x: T): seq<T>
  {
    if x in s then s else s + [x]
  }

  /** `lst.remove(x)` when `x` is in the list: the first occurrence goes. */
  function RemoveFirst<T(==)>(s: seq<T>, x: T): seq<T>
  {
    if s == [] then []
    else if s[0] == x then s[1..]
    else [s[0]] + RemoveFirst(s[1..], x)
  }

  /** The position of the first occurrence of `x`: `lst.index(x)`. */
  function FirstIndex<T(==)>(s: seq<T>, x: T): (k: nat)
    requires x in s
    ensures k < |s| && s[k] == x && x !in s[..k]
  {
    if s[0] == x then 0 else 1 + FirstIndex(s[1..], x)
  }

  /** Adding a name already present leaves the list as it was; adding an
      absent one appends it at the end, every earlier name keeping its
      position; either way the name is present afterwards. */
  lemma AddIfAbsentSpec<T>(s: seq<T>, x: T)
    ensures x in s ==> AddIfAbsent(s, x) == s
    ensures x !in s ==> |AddIfAbsent(s, x)| == |s| + 1 && AddIfAbsent(s, x)[|s|] == x
    ensures forall i :: 0 <= i < |s| ==> AddIfAbsent(s, x)[i] == s[i]
    ensures x in AddIfAbsent(s, x)
  {
  }

  /** Adding keeps a list free of duplicates. */
  lemma AddKeepsNoDup<T>(s: seq<T>, x: T)
    requires NoDup(s)
    ensures NoDup(AddIfAbsent(s, x))
  {
  }

  /** Adding the same name twice is the same as adding it once. */
  lemma AddIdempotent<T>(s: seq<T>, x: T)
    ensures AddIfAbsent(AddIfAbsent(s, x), x) == AddIfAbsent(s, x)
  {
  }

  /** Removing a present name deletes exactly its first occurrence: the
      names before it and the names after it stay, in their order. */
  lemma {:induction false} RemoveFirstSplices<T>(s: seq<T>, x: T)
    requires x in s
    ensures RemoveFirst(s, x) == s[..FirstIndex(s, x)] + s[FirstIndex(s, x) + 1..]
  {
    if s[0] != x {
      RemoveFirstSplices(s[1..], x);
      var k := FirstIndex(s[1..], x);
      assert s[1..][..k] == s[1..k + 1];
      assert s[1..][k + 1..] == s[k + 2..];
      assert [s[0]] + s[1..k + 1] == s[..k + 1];
    }
  }

  /** Removing deletes one occurrence of the name and no other element. */
  lemma {:induction false} RemoveFirstMultiset<T>(s: seq<T>, x: T)
    requires x in s
    ensures |RemoveFirst(s, x)| == |s| - 1
    ensures multiset(RemoveFirst(s, x)) == multiset(s) - multiset{x}
  {
    if s[0] == x {
      assert s == [s[0]] + s[1..];
    } else {
      RemoveFirstMultiset(s[1..], x);
      assert s == [s[0]] + s[1..];
    }
  }

  /** In a list without duplicates, removing a name leaves no trace of it
      and no duplicates. */
  lemma RemoveKeepsNoDup<T>(s: seq<T>, x: T)
    requires NoDup(s)
    requires x in s
    ensures NoDup(RemoveFirst(s, x))
    ensures x !in RemoveFirst(s, x)
  {
    var k := FirstIndex(s, x);
    RemoveFirstSplices(s, x);
    var t := RemoveFirst(s, x);
    assert |t| == |s| - 1;
    assert forall i :: 0 <= i < |t| ==> t[i] == (if i < k then s[i] else s[i + 1]);
    forall i, j | 0 <= i < j < |t|
      ensures t[i] != t[j]
    {
      var i' := if i < k then i else i + 1;
      var j' := if j < k then j else j + 1;
      assert t[i] == s[i'] && t[j] == s[j'] && i' < j';
    }
    forall i | 0 <= i < |t|
      ensures t[i] != x
    {
      var i' := if i < k then i else i + 1;
      assert t[i] == s[i'] && i' != k;
    }
  }

  /** Removing a name that was just added, absent before, gives back the
      list as it was. */
  lemma {:induction false} AddThenRemove<T>(s: seq<T>, x: T)
    requires x !in s
    ensures RemoveFirst(AddIfAbsent(s, x), x) == s
  {
    if s != [] {
      assert (s + [x])[0] == s[0];
      assert (s + [x])[1..] == s[1..] + [x];
      assert x !in s[1..];
      AddThenRemove(s[1..], x);
      assert [s[0]] + s[1..] == s;
    }
  }

  /** The file `favorites.json`: absent until the first save, then holding
      the list last saved. */
  class Store<T> {
    var file: Option<seq<T>>

    constructor(initial: Option<seq<T>>)
      ensures file == initial
    {
      file := initial;
    }

    /** `load_favorites()`: the stored list, or the empty list when nothing
        has been stored. */
    method Load() returns (favorites: seq<T>)
      ensures file.None? ==> favorites == []
      ensures file.Some? ==> favorites == file.value
    {
      match file
      case None => favorites := [];
      case Some(stored) => favorites := stored;
    }

    /** `save_favorites(lst)`: the whole file is replaced by `lst`. */
    method Save(favorites: seq<T>)
      modifies this
      ensures file == Some(favorites)
    {
      file := Some(favorites);
    }
  }

  /** What is loaded after a save is exactly what was saved. */
  method SaveThenLoad<T>(store: Store<T>, favorites: seq<T>) returns (loaded: seq<T>)
    modifies store
    ensures store.file == Some(favorites)
    ensures loaded == favorites
  {
    store.Save(favorites);
    loaded := store.Load();
  }
}
