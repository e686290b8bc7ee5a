/** The keyword directory: the server's `userKeywords` object, a table from
    socket id to the keyword that socket last declared.

    A JavaScript object lists its own string keys (`Object.keys`) in the order
    they were first created (section 10.1.11.1 of ECMA-262, for keys that are
    not array indices), so the table is a sequence of entries whose ids are
    pairwise distinct. Assigning to an existing key keeps its place; deleting
    a key and assigning it again moves it to the end. */
module Directory {

  type SocketId = string
  type Keyword = string

  datatype Option<T> = None | Some(value: T)

  /** One own property of `userKeywords`: key `id`, value `keyword`. */
  datatype Entry = Entry(id: SocketId, keyword: Keyword)

  /** The keys of the table in enumeration order (`Object.keys`). */
  function Ids(t: seq<Entry>): (ids: seq<SocketId>)
    ensures |ids| == |t|
  {
    if t == [] then [] else [t[0].id] + Ids(t[1..])
  }

  /** No key occurs twice: a JavaScript object has each property once. */
  predicate UniqueIds(t: seq<Entry>)
  {
    t == [] || (t[0].id !in Ids(t[1..]) && UniqueIds(t[1..]))
  }

  /** `userKeywords[id]`: the keyword stored under `id`, or None for undefined. */
  function Lookup(t: seq<Entry>, id: SocketId): Option<Keyword>
  {
    if t == [] then None
    else if t[0].id == id then Some(t[0].keyword)
    else Lookup(t[1..], id)
  }

  /** `userKeywords[id] = k`: overwrite the entry of `id` in place, or add a
      new entry at the end. */
  function Put(t: seq<Entry>, id: SocketId, k: Keyword): seq<Entry>
  {
    if t == [] then [Entry(id, k)]
    else if t[0].id == id then [Entry(id, k)] + t[1..]
    else [t[0]] + Put(t[1..], id, k)
  }

  /** `delete userKeywords[id]`: drop the entry of `id`, if any. */
  function Remove(t: seq<Entry>, id: SocketId): seq<Entry>
  {
    if t == [] then []
    else if t[0].id == id then Remove(t[1..], id)
    else [t[0]] + Remove(t[1..], id)
  }

  /** The predicate shared by the `filter` in `searchUsers` and the `find`
      in `startVideoCall`: strict equality of keywords, and not the searcher. */
  predicate Matches(e: Entry, k: Keyword, self: SocketId)
  {
    e.keyword == k && e.id != self
  }

  /** `r` is `xs` with some elements left out, the rest in their order. */
  predicate IsSubsequence(r: seq<SocketId>, xs: seq<SocketId>)
    decreases |xs|
  {
    if r == [] then true
    else if xs == [] then false
    else if r[0] == xs[0] then IsSubsequence(r[1..], xs[1..])
    else IsSubsequence(r, xs[1..])
  }

  /** `Object.keys(userKeywords).filter(...)` of `searchUsers`. */
  function Search(t: seq<Entry>, k: Keyword, self: SocketId): (r: seq<SocketId>)
    ensures self !in r
    ensures IsSubsequence(r, Ids(t))
  {
    if t == [] then []
    else if Matches(t[0], k, self) then [t[0].id] + Search(t[1..], k, self)
    else
      SubsequenceDrop(Search(t[1..], k, self), t[0].id, Ids(t[1..]));
      Search(t[1..], k, self)
  }

  /** `Object.keys(userKeywords).find(...)` of `startVideoCall`. */
  function FindFirst(t: seq<Entry>, k: Keyword, self: SocketId): (r: Option<SocketId>)
    ensures r.None? <==> forall e :: e in t ==> !Matches(e, k, self)
    ensures r.Some? ==> Entry(r.value, k) in t && r.value != self
  {
    if t == [] then None
    else if Matches(t[0], k, self) then Some(t[0].id)
    else FindFirst(t[1..], k, self)
  }

  // ---------------------------------------------------------------------
  // Positions and lookups

  lemma {:induction false} IdsAt(t: seq<Entry>, i: nat)
    requires i < |t|
    ensures Ids(t)[i] == t[i].id
  {
    if i > 0 {
      IdsAt(t[1..], i - 1);
    }
  }

  /** Distinct ids, stated by positions. */
  lemma {:induction false} UniqueAt(t: seq<Entry>, i: nat, j: nat)
    requires UniqueIds(t) && i < j < |t|
    ensures t[i].id != t[j].id
  {
    if i == 0 {
      IdsAt(t[1..], j - 1);
    } else {
      UniqueAt(t[1..], i - 1, j - 1);
    }
  }

  /** Under unique ids, the lookup of a stored id finds that entry's keyword,
      and an id that is not stored is undefined. */
  lemma {:induction false} LookupAt(t: seq<Entry>, i: nat)
    requires UniqueIds(t) && i < |t|
    ensures Lookup(t, t[i].id) == Some(t[i].keyword)
  {
    if i > 0 {
      UniqueAt(t, 0, i);
      LookupAt(t[1..], i - 1);
    }
  }

  lemma {:induction false} LookupAbsent(t: seq<Entry>, id: SocketId)
    ensures Lookup(t, id).None? <==> id !in Ids(t)
  {
    if t != [] {
      LookupAbsent(t[1..], id);
    }
  }

  // ---------------------------------------------------------------------
  // setKeyword: last write wins, positions kept

  /** Overwriting a present id replaces its entry where it stands. */
  lemma {:induction false} PutExisting(t: seq<Entry>, i: nat, k: Keyword)
    requires UniqueIds(t) && i < |t|
    ensures Put(t, t[i].id, k) == t[i := Entry(t[i].id, k)]
  {
    if i > 0 {
      UniqueAt(t, 0, i);
      PutExisting(t[1..], i - 1, k);
      assert t[1..][i - 1 := Entry(t[i].id, k)] == t[i := Entry(t[i].id, k)][1..];
    }
  }

  /** Writing an absent id appends a new entry at the end. */
  lemma {:induction false} PutNew(t: seq<Entry>, id: SocketId, k: Keyword)
    requires id !in Ids(t)
    ensures Put(t, id, k) == t + [Entry(id, k)]
  {
    if t != [] {
      PutNew(t[1..], id, k);
      assert t == [t[0]] + t[1..];
    }
  }

  /** The key order after `setKeyword`: unchanged when the id was present,
      the id appended when it was not. */
  lemma {:induction false} PutIds(t: seq<Entry>, id: SocketId, k: Keyword)
    ensures Ids(Put(t, id, k)) == if id in Ids(t) then Ids(t) else Ids(t) + [id]
  {
    if t != [] {
      PutIds(t[1..], id, k);
      if t[0].id != id {
        assert Ids(t) == [t[0].id] + Ids(t[1..]);
      }
    }
  }

  /** `setKeyword` keeps the table a proper object (each key once). */
  lemma {:induction false} PutUnique(t: seq<Entry>, id: SocketId, k: Keyword)
    requires UniqueIds(t)
    ensures UniqueIds(Put(t, id, k))
  {
    if t != [] && t[0].id != id {
      PutUnique(t[1..], id, k);
      PutIds(t[1..], id, k);
    }
  }

  /** Afterwards `userKeywords[id] === k`, and every other id reads as before. */
  lemma {:induction false} PutLookup(t: seq<Entry>, id: SocketId, k: Keyword, u: SocketId)
    ensures Lookup(Put(t, id, k), id) == Some(k)
    ensures u != id ==> Lookup(Put(t, id, k), u) == Lookup(t, u)
  {
    if t != [] && t[0].id != id {
      PutLookup(t[1..], id, k, u);
    }
  }

  /** Writing twice is the second write alone. */
  lemma {:induction false} PutTwice(t: seq<Entry>, id: SocketId, k1: Keyword, k2: Keyword)
    ensures Put(Put(t, id, k1), id, k2) == Put(t, id, k2)
  {
    if t != [] && t[0].id != id {
      PutTwice(t[1..], id, k1, k2);
    }
  }

  // ---------------------------------------------------------------------
  // disconnect: removal

  /** Removing a present id closes the gap; nothing else moves. */
  lemma {:induction false} RemoveExisting(t: seq<Entry>, i: nat)
    requires UniqueIds(t) && i < |t|
    ensures Remove(t, t[i].id) == t[..i] + t[i + 1..]
  {
    if i == 0 {
      RemoveAbsent(t[1..], t[0].id);
    } else {
      UniqueAt(t, 0, i);
      RemoveExisting(t[1..], i - 1);
      assert t[..i] == [t[0]] + t[1..][..i - 1];
      assert t[i + 1..] == t[1..][i..];
    }
  }

  /** Removing an absent id changes nothing. */
  lemma {:induction false} RemoveAbsent(t: seq<Entry>, id: SocketId)
    requires id !in Ids(t)
    ensures Remove(t, id) == t
  {
    if t != [] {
      RemoveAbsent(t[1..], id);
      assert t == [t[0]] + t[1..];
    }
  }

  /** The removed id is gone, and the remaining keys keep their order. */
  lemma {:induction false} RemoveIds(t: seq<Entry>, id: SocketId)
    ensures id !in Ids(Remove(t, id))
    ensures IsSubsequence(Ids(Remove(t, id)), Ids(t))
  {
    if t != [] {
      RemoveIds(t[1..], id);
      if t[0].id == id {
        SubsequenceDrop(Ids(Remove(t[1..], id)), t[0].id, Ids(t[1..]));
      }
    }
  }

  /** After removal `id` is undefined, and every other id reads as before. */
  lemma {:induction false} RemoveLookup(t: seq<Entry>, id: SocketId, u: SocketId)
    ensures Lookup(Remove(t, id), id).None?
    ensures u != id ==> Lookup(Remove(t, id), u) == Lookup(t, u)
  {
    if t != [] {
      RemoveLookup(t[1..], id, u);
    }
  }

  lemma {:induction false} RemoveUnique(t: seq<Entry>, id: SocketId)
    requires UniqueIds(t)
    ensures UniqueIds(Remove(t, id))
  {
    if t != [] {
      RemoveUnique(t[1..], id);
      if t[0].id != id {
        RemoveIds(t[1..], id);
        SubsequenceMembers(Ids(Remove(t[1..], id)), Ids(t[1..]));
      }
    }
  }

  /** A second `delete` of the same key is a no-op. */
  lemma {:induction false} RemoveIdempotent(t: seq<Entry>, id: SocketId)
    ensures Remove(Remove(t, id), id) == Remove(t, id)
  {
    RemoveIds(t, id);
    RemoveAbsent(Remove(t, id), id);
  }

  /** Deleting a key and assigning it again moves it to the end. */
  lemma {:induction false} RemoveThenPut(t: seq<Entry>, id: SocketId, k: Keyword)
    ensures Put(Remove(t, id), id, k) == Remove(t, id) + [Entry(id, k)]
    ensures Ids(Put(Remove(t, id), id, k)) == Ids(Remove(t, id)) + [id]
  {
    RemoveIds(t, id);
    PutNew(Remove(t, id), id, k);
    PutIds(Remove(t, id), id, k);
  }

  // ---------------------------------------------------------------------
  // Subsequences

  lemma {:induction false} SubsequenceMembers(r: seq<SocketId>, xs: seq<SocketId>)
    requires IsSubsequence(r, xs)
    ensures forall u :: u in r ==> u in xs
    decreases |xs|
  {
    if r != [] {
      if r[0] == xs[0] {
        SubsequenceMembers(r[1..], xs[1..]);
        assert r == [r[0]] + r[1..];
      } else {
        SubsequenceMembers(r, xs[1..]);
      }
    }
  }

  lemma {:induction false} SubsequenceDrop(r: seq<SocketId>, x: SocketId, xs: seq<SocketId>)
    requires IsSubsequence(r, xs)
    ensures IsSubsequence(r, [x] + xs)
    decreases |xs|, 1
  {
    if r != [] && r[0] == x {
      assert ([x] + xs)[1..] == xs;
      SubsequenceTail(r, xs);
    }
  }

  lemma {:induction false} SubsequenceTail(r: seq<SocketId>, xs: seq<SocketId>)
    requires r != [] && IsSubsequence(r, xs)
    ensures IsSubsequence(r[1..], xs)
    decreases |xs|, 0
  {
    if r[0] != xs[0] {
      SubsequenceTail(r, xs[1..]);
    }
    if r[1..] != [] {
      SubsequenceDrop(r[1..], xs[0], xs[1..]);
      assert [xs[0]] + xs[1..] == xs;
    }
  }

  // ---------------------------------------------------------------------
  // searchUsers and startVideoCall

  /** `searchUsers` returns exactly the other ids whose keyword is `k`. */
  lemma {:induction false} SearchMembers(t: seq<Entry>, k: Keyword, self: SocketId, u: SocketId)
    requires UniqueIds(t)
    ensures u in Search(t, k, self) <==> Lookup(t, u) == Some(k) && u != self
  {
    if t != [] {
      SearchMembers(t[1..], k, self, u);
      if u == t[0].id {
        SubsequenceMembers(Search(t[1..], k, self), Ids(t[1..]));
      }
    }
  }

  /** The search result is the only list of those ids in table order: any
      subsequence of the keys holding exactly the matching ids is it. */
  lemma {:induction false} SearchUnique(t: seq<Entry>, k: Keyword, self: SocketId, r: seq<SocketId>)
    requires UniqueIds(t)
    requires IsSubsequence(r, Ids(t))
    requires forall u :: u in r <==> Lookup(t, u) == Some(k) && u != self
    ensures r == Search(t, k, self)
  {
    if t != [] {
      var e := t[0];
      var rest := t[1..];
      assert Ids(t) == [e.id] + Ids(rest);
      var tail: seq<SocketId>;
      if Matches(e, k, self) {
        assert e.id in r;
        SubsequenceHead(r, e.id, Ids(rest));
        tail := r[1..];
        assert r == [e.id] + tail;
      } else {
        assert e.id !in r;
        SubsequenceSkip(r, e.id, Ids(rest));
        tail := r;
      }
      SubsequenceMembers(tail, Ids(rest));
      forall u
        ensures u in tail <==> Lookup(rest, u) == Some(k) && u != self
      {
        if u in tail {
          assert u in Ids(rest);
          assert u != e.id;
          assert u in r;
          assert Lookup(t, u) == Lookup(rest, u);
        }
        if Lookup(rest, u) == Some(k) && u != self {
          LookupAbsent(rest, u);
          assert u in Ids(rest);
          assert u != e.id;
          assert Lookup(t, u) == Some(k);
          assert u in r;
        }
      }
      SearchUnique(rest, k, self, tail);
    }
  }

  /** An element known to be in a subsequence of `[x] + xs`, and absent from
      `xs`, is its head. */
  lemma {:induction false} SubsequenceHead(r: seq<SocketId>, x: SocketId, xs: seq<SocketId>)
    requires IsSubsequence(r, [x] + xs) && x in r && x !in xs
    ensures r[0] == x && IsSubsequence(r[1..], xs)
  {
    assert ([x] + xs)[1..] == xs;
    if r[0] != x {
      SubsequenceMembers(r, xs);
    }
  }

  /** A subsequence of `[x] + xs` without `x` is a subsequence of `xs`. */
  lemma {:induction false} SubsequenceSkip(r: seq<SocketId>, x: SocketId, xs: seq<SocketId>)
    requires IsSubsequence(r, [x] + xs) && x !in r
    ensures IsSubsequence(r, xs)
  {
    assert ([x] + xs)[1..] == xs;
  }

  /** `find` and `filter` use the same predicate, so the id `startVideoCall`
      picks is the head of the list `searchUsers` would return, and there is
      a pick exactly when that list is non-empty. */
  lemma {:induction false} FindFirstIsHeadOfSearch(t: seq<Entry>, k: Keyword, self: SocketId)
    ensures FindFirst(t, k, self) == if Search(t, k, self) == [] then None else Some(Search(t, k, self)[0])
  {
    if t != [] && !Matches(t[0], k, self) {
      FindFirstIsHeadOfSearch(t[1..], k, self);
    }
  }

  /** After `disconnect(s)` no search and no call request returns `s`. */
  lemma {:induction false} RemovedNeverFound(t: seq<Entry>, s: SocketId, k: Keyword, self: SocketId)
    ensures s !in Search(Remove(t, s), k, self)
    ensures FindFirst(Remove(t, s), k, self) != Some(s)
  {
    RemoveIds(t, s);
    SubsequenceMembers(Search(Remove(t, s), k, self), Ids(Remove(t, s)));
    FindFirstIsHeadOfSearch(Remove(t, s), k, self);
  }

  /** Round trip of `setKeyword` and `searchUsers`: after `x` declares `k`,
      another socket's search for `k` finds `x`. */
  lemma {:induction false} PutThenSearch(t: seq<Entry>, x: SocketId, k: Keyword, y: SocketId)
    requires UniqueIds(t) && x != y
    ensures x in Search(Put(t, x, k), k, y)
  {
    PutUnique(t, x, k);
    PutLookup(t, x, k, x);
    SearchMembers(Put(t, x, k), k, y, x);
  }
}
