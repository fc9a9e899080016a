/**
 * What the `favorite add` and `favorite rm` commands of all three
 * generations do to the favourites list once they know which path is
 * meant: a path already present is not added twice, and `rm` takes out
 * the first occurrence (`list.remove`).  The commands differ only in how
 * they find the path and in how they report failures.
 */
module FavoriteChange {
  import PySeq

  /** Why a command left the list as it was, after a message. */
  datatype Note =
    | NoFavorites       // "No favorites to remove."
    | AlreadyPresent    // "Already in favorites."
    | NotPresent        // "Not in favorites."
    | InvalidIndex      // the older generation's "Invalid index" messages

  /** What a command leaves behind: the list it stored and the path it names, or only a note. */
  datatype Change<T> = Written(favorites: seq<T>, path: T) | Noted(note: Note)

  /** `favorites.append(path)` unless the path is already there. */
  function AddTo<T(==)>(favorites: seq<T>, x: T): (r: Change<T>)
    ensures x in favorites <==> r == Noted(AlreadyPresent)
    ensures x !in favorites ==> r == Written(favorites + [x], x)
  {
    if x in favorites then Noted(AlreadyPresent) else Written(favorites + [x], x)
  }

  /** `favorites.remove(path)` when the path is there. */
  function RemoveFrom<T(==)>(favorites: seq<T>, x: T): (r: Change<T>)
    ensures x !in favorites <==> r == Noted(NotPresent)
    ensures x in favorites ==> r.Written? && r.path == x && |r.favorites| == |favorites| - 1
    ensures x in favorites ==> multiset(r.favorites) + multiset{x} == multiset(favorites)
    ensures x in favorites ==> var i := PySeq.IndexOf(favorites, x);
              (forall m :: 0 <= m < i ==> r.favorites[m] == favorites[m]) &&
              (forall m :: i <= m < |r.favorites| ==> r.favorites[m] == favorites[m + 1])
  {
    if x !in favorites then Noted(NotPresent) else Written(PySeq.RemoveFirst(favorites, x), x)
  }

  /** `pop(index)` for an index inside the list. */
  function PopAt<T>(favorites: seq<T>, index: nat): (r: Change<T>)
    requires index < |favorites|
    ensures r.Written? && r.path == favorites[index]
    ensures multiset(r.favorites) + multiset{favorites[index]} == multiset(favorites)
    ensures |r.favorites| == |favorites| - 1
    ensures forall m :: 0 <= m < index ==> r.favorites[m] == favorites[m]
    ensures forall m :: index <= m < |r.favorites| ==> r.favorites[m] == favorites[m + 1]
  {
    assert favorites == favorites[..index] + [favorites[index]] + favorites[index + 1..];
    Written(PySeq.RemoveAt(favorites, index), favorites[index])
  }

  /** Adding never creates a repeat: a list without repeats stays without them. */
  lemma AddKeepsDistinct<T>(favorites: seq<T>, x: T)
    requires PySeq.NoDuplicates(favorites)
    ensures AddTo(favorites, x).Written? ==> PySeq.NoDuplicates(AddTo(favorites, x).favorites)
  {
    if x !in favorites {
      var r := favorites + [x];
      forall a, b | 0 <= a < b < |r|
        ensures r[a] != r[b]
      {
        if b == |favorites| {
          assert r[a] == favorites[a];
        }
      }
    }
  }

  /** Removing from a list without repeats takes the path out entirely. */
  lemma RemoveKeepsDistinct<T>(favorites: seq<T>, x: T)
    requires PySeq.NoDuplicates(favorites)
    ensures RemoveFrom(favorites, x).Written? ==>
              x !in RemoveFrom(favorites, x).favorites && PySeq.NoDuplicates(RemoveFrom(favorites, x).favorites)
  {
    if x in favorites {
      PySeq.RemoveFirstDistinct(favorites, x);
    }
  }

  /** Removing a path just added gives the list back. */
  lemma AddThenRemove<T>(favorites: seq<T>, x: T)
    requires x !in favorites
    ensures RemoveFrom(AddTo(favorites, x).favorites, x) == Written(favorites, x)
  {
    PySeq.RemoveFirstAppended(favorites, x);
  }

  /**
   * Removing a path from a list without repeats and adding it back only
   * moves it to the end: the other paths keep their order.
   */
  lemma RemoveThenAdd<T>(favorites: seq<T>, x: T)
    requires PySeq.NoDuplicates(favorites) && x in favorites
    ensures var removed := RemoveFrom(favorites, x).favorites;
            removed == PySeq.Filter(favorites, PySeq.Other(x)) &&
            AddTo(removed, x) == Written(removed + [x], x) &&
            multiset(removed + [x]) == multiset(favorites)
  {
    PySeq.RemoveFirstDistinct(favorites, x);
    PySeq.RemoveFirstIsFilter(favorites, x);
  }
}
