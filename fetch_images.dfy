/**
  fetch_images.mjs: the node ids are requested from the artists endpoint in batches of 50,
  the settled batches are merged into one artist list, every artist id is mapped to the URL
  of its first image, and that map is written out as a two-column CSV text.

  A JavaScript object is an association list in property-creation order with distinct keys;
  `Object.entries` lists the array-index keys first, in ascending numeric order, and then the
  other keys in creation order (ECMA-262, section 10.1.11.1, OrdinaryOwnPropertyKeys).
 */
module FetchImages {
  import opened Wrappers
  import opened Builtins

  /** An entry of `json.nodes`: only `id__1`, the artist id, is read. */
  datatype Node = Node(id: string)

  datatype Image = Image(url: string)

  /** One artist of the endpoint's `artists` list. */
  datatype ArtistRecord = ArtistRecord(id: string, images: seq<Image>)

  /** The settled outcome of one batch request. */
  datatype Settled = Fulfilled(artists: seq<ArtistRecord>) | Rejected

  /** One property of an object, and one `[key, value]` pair given to `Object.fromEntries`. */
  datatype Entry = Entry(key: string, value: string)

  // ---------------------------------------------------------------- batching

  /** The number of batches: `n / 50` rounded up, the least number of batches of 50 that hold `n` ids. */
  function GroupCount(n: nat): (g: nat)
    ensures n <= g * 50
    ensures g > 0 ==> (g - 1) * 50 < n
    ensures g == 0 <==> n == 0
  {
    (n + 49) / 50
  }

  /** The artist id of every node, in order. */
  function IdsOf(nodes: seq<Node>): seq<string> {
    seq(|nodes|, i requires 0 <= i < |nodes| => nodes[i].id)
  }

  lemma IdsOfRun(nodes: seq<Node>, lo: nat, hi: nat)
    requires lo <= hi <= |nodes|
    ensures IdsOf(nodes[lo .. hi]) == IdsOf(nodes)[lo .. hi]
  {
  }

  /** The ids of batch `i`: the slice of the nodes from `50 * i` to `50 * (i + 1)`. */
  function Group(nodes: seq<Node>, i: nat): seq<string> {
    IdsOf(Slice(nodes, 50 * i, 50 * (i + 1)))
  }

  /** The id list of every request, one per batch, in batch order. */
  function Groups(nodes: seq<Node>): (gs: seq<seq<string>>)
    ensures |gs| == GroupCount(|nodes|)
  {
    seq(GroupCount(|nodes|), i requires 0 <= i => Group(nodes, i))
  }

  /** Batch `i` is the run of ids from `50 * i` up to `50 * (i + 1)` or the end, and holds 1 to 50 ids. */
  lemma GroupIsRun(nodes: seq<Node>, i: nat)
    requires i < |Groups(nodes)|
    ensures Groups(nodes)[i] == IdsOf(nodes)[50 * i .. Min(50 * (i + 1), |nodes|)]
    ensures 1 <= |Groups(nodes)[i]| <= 50
  {
    var g := GroupCount(|nodes|);
    var lo := 50 * i;
    var hi := Min(50 * (i + 1), |nodes|);
    assert lo < |nodes| by {
      assert i <= g - 1;
      assert 50 * i <= 50 * (g - 1);
    }
    assert Group(nodes, i) == IdsOf(nodes[lo .. hi]) by {
      assert Slice(nodes, lo, 50 * (i + 1)) == nodes[lo .. hi];
    }
    IdsOfRun(nodes, lo, hi);
  }

  /** The lists one after the other. */
  function Flatten<T>(xss: seq<seq<T>>): (r: seq<T>)
  {
    if |xss| == 0 then [] else Flatten(xss[..|xss| - 1]) + xss[|xss| - 1]
  }

  /** Runs of 50 that start inside `s`, laid end to end, cover a prefix of `s`. */
  lemma {:induction false} RunsCoverPrefix<T>(xss: seq<seq<T>>, s: seq<T>, j: nat)
    requires j <= |xss|
    requires forall k :: 0 <= k < |xss| ==> 50 * k < |s| && xss[k] == s[50 * k .. Min(50 * (k + 1), |s|)]
    ensures Flatten(xss[..j]) == s[..Min(50 * j, |s|)]
  {
    if j > 0 {
      var lo := 50 * (j - 1);
      var hi := Min(50 * j, |s|);
      RunsCoverPrefix(xss, s, j - 1);
      PrefixOfPrefix(xss, j - 1, j);
      PrefixThenRun(s, lo, hi);
    }
  }

  /** Enough such runs cover all of `s`. */
  lemma RunsCover<T>(xss: seq<seq<T>>, s: seq<T>)
    requires |s| <= 50 * |xss|
    requires forall k :: 0 <= k < |xss| ==> 50 * k < |s| && xss[k] == s[50 * k .. Min(50 * (k + 1), |s|)]
    ensures Flatten(xss) == s
  {
    RunsCoverPrefix(xss, s, |xss|);
    assert xss[..|xss|] == xss;
    assert s[..|s|] == s;
  }

  lemma GroupsAreRuns(nodes: seq<Node>)
    ensures forall k :: 0 <= k < |Groups(nodes)| ==>
      50 * k < |nodes| && Groups(nodes)[k] == IdsOf(nodes)[50 * k .. Min(50 * (k + 1), |nodes|)]
  {
    forall k | 0 <= k < |Groups(nodes)|
      ensures 50 * k < |nodes| && Groups(nodes)[k] == IdsOf(nodes)[50 * k .. Min(50 * (k + 1), |nodes|)]
    {
      GroupIsRun(nodes, k);
    }
  }

  /** Concatenating the batches in order gives back the id list exactly. */
  lemma GroupsConcat(nodes: seq<Node>)
    ensures Flatten(Groups(nodes)) == IdsOf(nodes)
  {
    GroupsAreRuns(nodes);
    RunsCover(Groups(nodes), IdsOf(nodes));
  }

  // ---------------------------------------------------------------- merging

  /** What one settled batch adds to the merged list. */
  function Contribution(res: Settled): seq<ArtistRecord> {
    match res
    case Fulfilled(artists) => artists
    case Rejected => []
  }

  /** The merged artist list: the artists of each fulfilled batch, in batch order; a rejected batch adds none. */
  function Merge(results: seq<Settled>): (merged: seq<ArtistRecord>)
    ensures forall a :: a in merged <==> exists i :: 0 <= i < |results| && a in Contribution(results[i])
  {
    if |results| == 0 then []
    else
      var init := results[..|results| - 1];
      assert forall i :: 0 <= i < |init| ==> init[i] == results[i];
      Merge(init) + Contribution(results[|results| - 1])
  }

  /** Merging is a homomorphism of concatenation. */
  lemma {:induction false} MergeAppend(r1: seq<Settled>, r2: seq<Settled>)
    ensures Merge(r1 + r2) == Merge(r1) + Merge(r2)
  {
    if |r2| > 0 {
      var r2' := r2[..|r2| - 1];
      MergeAppend(r1, r2');
      FrontOfAppend(r1, r2);
    } else {
      assert r1 + r2 == r1;
    }
  }

  /** A rejected batch contributes no artists, wherever it stands. */
  lemma RejectedContributesNothing(r1: seq<Settled>, r2: seq<Settled>)
    ensures Merge(r1 + [Rejected] + r2) == Merge(r1 + r2)
  {
    assert Merge([Rejected]) == [] by {
      assert [Rejected][..0] == [];
    }
    assert Merge(r1 + [Rejected]) == Merge(r1) by {
      MergeAppend(r1, [Rejected]);
    }
    MergeAppend(r1 + [Rejected], r2);
    MergeAppend(r1, r2);
  }

  /** A fulfilled batch's artists appear in the merged list, in their order, after those of the earlier batches. */
  lemma FulfilledBatchInPlace(results: seq<Settled>, i: nat)
    requires i < |results| && results[i].Fulfilled?
    ensures var at := |Merge(results[..i])|;
      at + |results[i].artists| <= |Merge(results)| &&
      Merge(results)[at .. at + |results[i].artists|] == results[i].artists
  {
    var front, back := results[..i], results[i + 1..];
    assert results == front + [results[i]] + back;
    assert Merge([results[i]]) == results[i].artists by {
      assert [results[i]][..0] == [];
    }
    assert Merge(front + [results[i]]) == Merge(front) + results[i].artists by {
      MergeAppend(front, [results[i]]);
    }
    MergeAppend(front + [results[i]], back);
  }

  /** With every batch fulfilled, the merged list is the batches' artist lists one after the other. */
  lemma {:induction false} AllFulfilledIsConcatenation(results: seq<Settled>, lists: seq<seq<ArtistRecord>>)
    requires |results| == |lists|
    requires forall i :: 0 <= i < |results| ==> results[i] == Fulfilled(lists[i])
    ensures Merge(results) == Flatten(lists)
  {
    if |results| > 0 {
      var n := |results| - 1;
      AllFulfilledIsConcatenation(results[..n], lists[..n]);
    }
  }

  // ---------------------------------------------------------------- the object

  /** The URL of the artist's first image, or `""` when it has none. */
  function FirstImageUrl(a: ArtistRecord): string {
    if |a.images| > 0 then a.images[0].url else ""
  }

  /** One `[id, url]` pair per merged artist, in order. */
  function Pairs(merged: seq<ArtistRecord>): seq<Entry> {
    seq(|merged|, i requires 0 <= i < |merged| => Entry(merged[i].id, FirstImageUrl(merged[i])))
  }

  predicate HasKey(entries: seq<Entry>, k: string) {
    exists i :: 0 <= i < |entries| && entries[i].key == k
  }

  /** No key occurs twice: what makes an entry list an object. */
  predicate Unique(obj: seq<Entry>) {
    forall i, j :: 0 <= i < j < |obj| ==> obj[i].key != obj[j].key
  }

  /** Setting a property: an existing key keeps its place and takes the new value, a new key goes last. */
  function Put(obj: seq<Entry>, k: string, v: string): (r: seq<Entry>)
    requires Unique(obj)
    ensures Unique(r)
    ensures |r| == if HasKey(obj, k) then |obj| else |obj| + 1
    ensures forall i :: 0 <= i < |obj| ==> r[i] == if obj[i].key == k then Entry(k, v) else obj[i]
    ensures !HasKey(obj, k) ==> r[|obj|] == Entry(k, v)
  {
    if |obj| == 0 then [Entry(k, v)]
    else if obj[0].key == k then [Entry(k, v)] + obj[1..]
    else
      var rest := Put(obj[1..], k, v);
      assert HasKey(obj, k) <==> HasKey(obj[1..], k) by {
        if HasKey(obj, k) {
          var i :| 0 <= i < |obj| && obj[i].key == k;
          assert obj[1..][i - 1].key == k;
        }
      }
      [obj[0]] + rest
  }

  /** The value of the last pair with key `k`: the reference definition of "a later pair wins". */
  function LastValue(pairs: seq<Entry>, k: string): (v: Option<string>)
    ensures v.None? <==> !HasKey(pairs, k)
    ensures v.Some? ==> exists i :: 0 <= i < |pairs| && pairs[i] == Entry(k, v.value) &&
                                   (forall j :: i < j < |pairs| ==> pairs[j].key != k)
  {
    if |pairs| == 0 then None
    else if pairs[|pairs| - 1].key == k then Some(pairs[|pairs| - 1].value)
    else
      var init := pairs[..|pairs| - 1];
      assert forall i :: 0 <= i < |init| ==> init[i] == pairs[i];
      LastValue(init, k)
  }

  /** `obj[k]`: the value under key `k`, if the object has one. */
  function Get(obj: seq<Entry>, k: string): (v: Option<string>)
    ensures v.None? <==> !HasKey(obj, k)
    ensures v.Some? ==> exists i :: 0 <= i < |obj| && obj[i] == Entry(k, v.value)
  {
    if |obj| == 0 then None
    else if obj[0].key == k then Some(obj[0].value)
    else
      var v := Get(obj[1..], k);
      assert HasKey(obj, k) ==> HasKey(obj[1..], k) by {
        if HasKey(obj, k) {
          var i :| 0 <= i < |obj| && obj[i].key == k;
          assert obj[1..][i - 1].key == k;
        }
      }
      v
  }

  /** After setting `k` to `v`, reading `k` gives `v` and every other key reads as before. */
  lemma {:induction false} GetPut(obj: seq<Entry>, k: string, v: string, k': string)
    requires Unique(obj)
    ensures Get(Put(obj, k, v), k') == if k' == k then Some(v) else Get(obj, k')
  {
    if |obj| > 0 && obj[0].key != k {
      if obj[0].key != k' {
        GetPut(obj[1..], k, v, k');
        assert Put(obj, k, v)[1..] == Put(obj[1..], k, v);
      }
    }
  }

  /** The position of the first pair with key `k`. */
  function FirstIndex(pairs: seq<Entry>, k: string): (p: nat)
    requires HasKey(pairs, k)
    ensures p < |pairs| && pairs[p].key == k
    ensures forall j :: 0 <= j < p ==> pairs[j].key != k
  {
    if pairs[0].key == k then 0
    else
      assert HasKey(pairs[1..], k) by {
        var i :| 0 <= i < |pairs| && pairs[i].key == k;
        assert pairs[1..][i - 1].key == k;
      }
      1 + FirstIndex(pairs[1..], k)
  }

  /** `Object.fromEntries(pairs)`: one property per distinct key of the pairs. */
  function FromEntries(pairs: seq<Entry>): (obj: seq<Entry>)
    ensures Unique(obj)
    ensures forall i :: 0 <= i < |obj| ==> HasKey(pairs, obj[i].key)
  {
    if |pairs| == 0 then []
    else
      var init := pairs[..|pairs| - 1];
      var last := pairs[|pairs| - 1];
      var o := FromEntries(init);
      var r := Put(o, last.key, last.value);
      assert forall i :: 0 <= i < |r| ==> HasKey(pairs, r[i].key) by {
        forall i | 0 <= i < |r|
          ensures HasKey(pairs, r[i].key)
        {
          if i < |o| {
            var p :| 0 <= p < |init| && init[p].key == o[i].key;
            assert pairs[p].key == r[i].key;
          } else {
            assert r[i].key == pairs[|pairs| - 1].key;
          }
        }
      }
      r
  }

  lemma {:induction false} FromEntriesStep(pairs: seq<Entry>)
    requires |pairs| > 0
    ensures FromEntries(pairs) ==
      Put(FromEntries(pairs[..|pairs| - 1]), pairs[|pairs| - 1].key, pairs[|pairs| - 1].value)
  {
  }

  /**
    A later pair wins: reading key `k` of the object gives the value of the last pair with
    that key, and the object has key `k` exactly when some pair has.
   */
  lemma {:induction false} FromEntriesLaterWins(pairs: seq<Entry>, k: string)
    ensures Get(FromEntries(pairs), k) == LastValue(pairs, k)
    ensures HasKey(FromEntries(pairs), k) <==> HasKey(pairs, k)
  {
    if |pairs| > 0 {
      var init := pairs[..|pairs| - 1];
      var last := pairs[|pairs| - 1];
      FromEntriesLaterWins(init, k);
      GetPut(FromEntries(init), last.key, last.value, k);
    }
  }

  /** A pair added at the end does not move the first occurrence of a key that was there already. */
  lemma FirstIndexSnoc(pairs: seq<Entry>, e: Entry, k: string)
    requires HasKey(pairs, k)
    ensures HasKey(pairs + [e], k)
    ensures FirstIndex(pairs + [e], k) == FirstIndex(pairs, k)
  {
    var b := FirstIndex(pairs, k);
    assert (pairs + [e])[b] == pairs[b];
  }

  /** A key that is new in the last pair first occurs there. */
  lemma FirstIndexOfNewKey(pairs: seq<Entry>, e: Entry)
    requires !HasKey(pairs, e.key)
    ensures HasKey(pairs + [e], e.key)
    ensures FirstIndex(pairs + [e], e.key) == |pairs|
  {
    assert (pairs + [e])[|pairs|] == e;
  }

  /** The properties come in the order in which their keys first occur among the pairs. */
  lemma {:induction false} FromEntriesKeepsFirstOccurrenceOrder(pairs: seq<Entry>, i: nat, j: nat)
    requires i < j < |FromEntries(pairs)|
    ensures FirstIndex(pairs, FromEntries(pairs)[i].key) < FirstIndex(pairs, FromEntries(pairs)[j].key)
  {
    var n := |pairs| - 1;
    var init := pairs[..n];
    var last := pairs[n];
    var o := FromEntries(init);
    FrontLast(pairs);
    FromEntriesStep(pairs);
    var r := FromEntries(pairs);
    assert r[i].key == o[i].key;
    FirstIndexSnoc(init, last, o[i].key);
    if j < |o| {
      assert r[j].key == o[j].key;
      FromEntriesKeepsFirstOccurrenceOrder(init, i, j);
      FirstIndexSnoc(init, last, o[j].key);
    } else {
      assert !HasKey(o, last.key) && r[j].key == last.key;
      FromEntriesLaterWins(init, last.key);
      FirstIndexOfNewKey(init, last);
    }
  }

  /** The pair that no later pair overrides gives the value. */
  lemma {:induction false} LastValueAt(pairs: seq<Entry>, i: nat)
    requires i < |pairs|
    requires forall j :: i < j < |pairs| ==> pairs[j].key != pairs[i].key
    ensures LastValue(pairs, pairs[i].key) == Some(pairs[i].value)
  {
    var n := |pairs| - 1;
    if i < n {
      var init := pairs[..n];
      assert init[i] == pairs[i];
      LastValueAt(init, i);
    }
  }

  /**
    Every artist id is mapped to its first image's URL, or to `""` without images; for an
    id that occurs more than once, the last artist with that id decides.
   */
  lemma ArtistImageWins(merged: seq<ArtistRecord>, i: nat)
    requires i < |merged|
    requires forall j :: i < j < |merged| ==> merged[j].id != merged[i].id
    ensures Get(FromEntries(Pairs(merged)), merged[i].id) == Some(FirstImageUrl(merged[i]))
    ensures |merged[i].images| > 0 ==> FirstImageUrl(merged[i]) == merged[i].images[0].url
    ensures |merged[i].images| == 0 ==> FirstImageUrl(merged[i]) == ""
  {
    var ps := Pairs(merged);
    LastValueAt(ps, i);
    FromEntriesLaterWins(ps, merged[i].id);
  }

  // ---------------------------------------------------------------- Object.entries

  predicate IsDigit(c: char) {
    '0' <= c <= '9'
  }

  predicate IsDigits(s: string) {
    forall i :: 0 <= i < |s| ==> IsDigit(s[i])
  }

  /** The number that a text of decimal digits spells. */
  function DecimalValue(s: string): nat
    requires IsDigits(s)
  {
    if |s| == 0 then 0 else DecimalValue(s[..|s| - 1]) * 10 + (s[|s| - 1] as int - '0' as int)
  }

  /**
    An array index (ECMA-262, section 6.1.7): a key that is the canonical decimal text of an
    integer below 2^32 - 1, that is, digits without a leading zero (except `"0"` itself).
   */
  predicate IsArrayIndex(k: string) {
    |k| > 0 && IsDigits(k) && (k[0] != '0' || |k| == 1) && DecimalValue(k) < 0xFFFF_FFFF
  }

  /** The numeric value by which array-index keys are ordered. */
  function IndexValue(k: string): nat {
    if IsArrayIndex(k) then DecimalValue(k) else 0
  }

  function Pow10(e: nat): nat {
    if e == 0 then 1 else 10 * Pow10(e - 1)
  }

  /** A digit text without a leading zero is at least the power of ten below its length. */
  lemma {:induction false} DecimalValueLowerBound(s: string)
    requires |s| > 0 && IsDigits(s) && s[0] != '0'
    ensures DecimalValue(s) >= Pow10(|s| - 1)
  {
    if |s| > 1 {
      var front := s[..|s| - 1];
      assert front[0] == s[0];
      DecimalValueLowerBound(front);
    }
  }

  /** A key of eleven characters or more (Spotify ids have 22) is never an array index. */
  lemma LongKeyIsNotArrayIndex(k: string)
    requires |k| >= 11
    ensures !IsArrayIndex(k)
  {
    if |k| > 0 && IsDigits(k) && k[0] != '0' {
      DecimalValueLowerBound(k);
      PowerGrows(10, |k| - 1);
    }
  }

  lemma {:induction false} PowerGrows(a: nat, b: nat)
    requires a <= b
    ensures Pow10(a) <= Pow10(b)
  {
    if a < b {
      PowerGrows(a, b - 1);
    }
  }

  /** The entries whose key is (with `index`) or is not (without) an array index, in creation order. */
  function KeysWhere(obj: seq<Entry>, index: bool): (r: seq<Entry>)
    ensures forall e :: e in r <==> e in obj && IsArrayIndex(e.key) == index
  {
    if |obj| == 0 then []
    else
      var front := obj[..|obj| - 1];
      var last := obj[|obj| - 1];
      assert forall e :: e in obj <==> e in front || e == last by {
        FrontLast(obj);
      }
      KeysWhere(front, index) + (if IsArrayIndex(last.key) == index then [last] else [])
  }

  /** Both kinds together are all the entries. */
  lemma {:induction false} KeysWherePartitions(obj: seq<Entry>)
    ensures multiset(KeysWhere(obj, true)) + multiset(KeysWhere(obj, false)) == multiset(obj)
  {
    if |obj| > 0 {
      KeysWherePartitions(obj[..|obj| - 1]);
      FrontLast(obj);
    }
  }

  /** Keeping one kind distributes over concatenation: the entries of that kind keep their order. */
  lemma {:induction false} KeysWhereAppend(a: seq<Entry>, b: seq<Entry>, index: bool)
    ensures KeysWhere(a + b, index) == KeysWhere(a, index) + KeysWhere(b, index)
  {
    if |b| > 0 {
      var b' := b[..|b| - 1];
      KeysWhereAppend(a, b', index);
      FrontOfAppend(a, b);
    } else {
      assert a + b == a;
    }
  }

  /** With no array-index key, the other kind is the whole object, in creation order. */
  lemma {:induction false} KeysWhereAllNamed(obj: seq<Entry>)
    requires forall i :: 0 <= i < |obj| ==> !IsArrayIndex(obj[i].key)
    ensures KeysWhere(obj, false) == obj
    ensures KeysWhere(obj, true) == []
  {
    if |obj| > 0 {
      KeysWhereAllNamed(obj[..|obj| - 1]);
      FrontLast(obj);
    }
  }

  predicate Ascending(s: seq<Entry>) {
    forall i, j :: 0 <= i < j < |s| ==> IndexValue(s[i].key) <= IndexValue(s[j].key)
  }

  /** Puts `e` after the entries whose index is not larger. */
  function Insert(sorted: seq<Entry>, e: Entry): (r: seq<Entry>)
    ensures multiset(r) == multiset(sorted) + multiset{e}
    ensures forall x :: x in r <==> x in sorted || x == e
  {
    if |sorted| == 0 then [e]
    else if IndexValue(e.key) < IndexValue(sorted[0].key) then [e] + sorted
    else
      var rest := Insert(sorted[1..], e);
      assert sorted == [sorted[0]] + sorted[1..];
      [sorted[0]] + rest
  }

  /** Inserting into an ascending list keeps it ascending. */
  lemma {:induction false} InsertKeepsAscending(sorted: seq<Entry>, e: Entry)
    requires Ascending(sorted)
    ensures Ascending(Insert(sorted, e))
  {
    if |sorted| > 0 && IndexValue(e.key) >= IndexValue(sorted[0].key) {
      var tail := sorted[1..];
      InsertKeepsAscending(tail, e);
      var rest := Insert(tail, e);
      forall x | x in rest
        ensures IndexValue(sorted[0].key) <= IndexValue(x.key)
      {
        if x != e {
          var m :| 0 <= m < |tail| && tail[m] == x;
          assert sorted[m + 1] == x;
        }
      }
      AscendingCons(sorted[0], rest);
    }
  }

  lemma AscendingCons(x: Entry, s: seq<Entry>)
    requires Ascending(s)
    requires forall y :: y in s ==> IndexValue(x.key) <= IndexValue(y.key)
    ensures Ascending([x] + s)
  {
    var r := [x] + s;
    forall i, j | 0 <= i < j < |r|
      ensures IndexValue(r[i].key) <= IndexValue(r[j].key)
    {
      assert r[j] == s[j - 1];
      if i == 0 {
        assert s[j - 1] in s;
      } else {
        assert r[i] == s[i - 1];
      }
    }
  }

  /** The array-index entries in ascending numeric order. */
  function SortByIndex(s: seq<Entry>): (r: seq<Entry>)
    ensures multiset(r) == multiset(s)
    ensures Ascending(r)
  {
    if |s| == 0 then []
    else
      var sorted := SortByIndex(s[..|s| - 1]);
      InsertKeepsAscending(sorted, s[|s| - 1]);
      assert s == s[..|s| - 1] + [s[|s| - 1]] by {
        FrontLast(s);
      }
      Insert(sorted, s[|s| - 1])
  }

  /**
    `Object.entries(obj)`: the array-index keys by number, then the other keys by creation.
    Every property is listed exactly once; array-index keys come before the others and
    ascend by numeric value.
   */
  function Entries(obj: seq<Entry>): (es: seq<Entry>)
    ensures multiset(es) == multiset(obj)
    ensures forall i, j :: 0 <= i < j < |es| && IsArrayIndex(es[j].key) ==>
      IsArrayIndex(es[i].key) && IndexValue(es[i].key) <= IndexValue(es[j].key)
  {
    var sorted := SortByIndex(KeysWhere(obj, true));
    var named := KeysWhere(obj, false);
    KeysWherePartitions(obj);
    assert forall e :: e in sorted ==> IsArrayIndex(e.key) by {
      forall e | e in sorted
        ensures IsArrayIndex(e.key)
      {
        assert e in multiset(KeysWhere(obj, true));
      }
    }
    IndexKeysFirst(sorted, named);
    sorted + named
  }

  /** Ascending array-index entries followed by other entries are in `Object.entries` order. */
  lemma IndexKeysFirst(sorted: seq<Entry>, named: seq<Entry>)
    requires Ascending(sorted)
    requires forall e :: e in sorted ==> IsArrayIndex(e.key)
    requires forall e :: e in named ==> !IsArrayIndex(e.key)
    ensures var es := sorted + named;
      forall i, j :: 0 <= i < j < |es| && IsArrayIndex(es[j].key) ==>
        IsArrayIndex(es[i].key) && IndexValue(es[i].key) <= IndexValue(es[j].key)
  {
    var es := sorted + named;
    forall i, j | 0 <= i < j < |es| && IsArrayIndex(es[j].key)
      ensures IsArrayIndex(es[i].key) && IndexValue(es[i].key) <= IndexValue(es[j].key)
    {
      if j < |sorted| {
        assert es[i] == sorted[i] && es[j] == sorted[j];
        assert sorted[i] in sorted;
      }
    }
  }

  /** Without array-index keys (as with Spotify ids), `Object.entries` keeps the creation order. */
  lemma EntriesOfNamedKeys(obj: seq<Entry>)
    requires forall i :: 0 <= i < |obj| ==> !IsArrayIndex(obj[i].key)
    ensures Entries(obj) == obj
  {
    KeysWhereAllNamed(obj);
  }

  // ---------------------------------------------------------------- the CSV text

  /** The line of one entry: its id, a comma, its URL. */
  function Line(e: Entry): string {
    e.key + "," + e.value
  }

  /** The lines of the entries, in order. */
  function Lines(es: seq<Entry>): seq<string> {
    seq(|es|, i requires 0 <= i < |es| => Line(es[i]))
  }

  predicate NoNewline(e: Entry) {
    '\n' !in e.key && '\n' !in e.value
  }

  /**
    The text written out: the header line, then the `id,url` lines of the entries joined by
    newlines. With no records it is the header alone, ending in its newline. With records and
    no newline inside ids and URLs, its lines are the header and then one `id,url` line per
    entry: no blank line and no trailing newline.
   */
  function Csv(records: seq<Entry>): (text: string)
    ensures |records| == 0 ==> text == "id,image_url\n"
    ensures |records| > 0 && (forall i :: 0 <= i < |records| ==> NoNewline(records[i])) ==>
      Split(text, '\n') == ["id,image_url"] + Lines(Entries(records))
  {
    var ls := Lines(Entries(records));
    var text := "id,image_url\n" + Join(ls, "\n");
    if |records| == 0 then
      assert KeysWhere(records, true) == [] && KeysWhere(records, false) == [];
      text
    else if forall i :: 0 <= i < |records| ==> NoNewline(records[i]) then
      LinesHaveNoNewline(records);
      HeaderThenLines(ls);
      text
    else
      text
  }

  /** The header line followed by lines without newlines splits back into those lines. */
  lemma HeaderThenLines(ls: seq<string>)
    requires |ls| > 0
    requires forall i :: 0 <= i < |ls| ==> '\n' !in ls[i]
    ensures Split("id,image_url\n" + Join(ls, "\n"), '\n') == ["id,image_url"] + ls
  {
    var h := "id,image_url";
    assert "id,image_url\n" == h + ['\n'];
    assert '\n' !in h by {
      forall c | c in h
        ensures c != '\n'
      {
      }
    }
    SplitJoin(ls, '\n');
    SplitAfterPiece(h, '\n', Join(ls, ['\n']));
  }

  /** There is an entry line per record, and none holds a newline. */
  lemma LinesHaveNoNewline(records: seq<Entry>)
    requires |records| > 0
    requires forall i :: 0 <= i < |records| ==> NoNewline(records[i])
    ensures |Lines(Entries(records))| > 0
    ensures forall i :: 0 <= i < |Lines(Entries(records))| ==> '\n' !in Lines(Entries(records))[i]
  {
    var es := Entries(records);
    var ls := Lines(es);
    assert records[0] in multiset(es);
    forall i | 0 <= i < |ls|
      ensures '\n' !in ls[i]
    {
      assert es[i] in multiset(records);
      var k :| 0 <= k < |records| && records[k] == es[i];
      assert NoNewline(records[k]);
    }
  }

  // ---------------------------------------------------------------- the whole run

  /**
    The settled outcome of every batch request, in batch order. The artists endpoint is an
    oracle from the number of a request and its id list to the outcome, so two requests for
    the same ids may settle differently.
   */
  function Settle(nodes: seq<Node>, artists: (nat, seq<string>) -> Settled): seq<Settled> {
    var gs := Groups(nodes);
    seq(|gs|, i requires 0 <= i < |gs| => artists(i, gs[i]))
  }

  /** The object that maps every fetched artist id to its image URL. */
  function Images(nodes: seq<Node>, artists: (nat, seq<string>) -> Settled): seq<Entry> {
    FromEntries(Pairs(Merge(Settle(nodes, artists))))
  }

  /**
    The text written to `images.csv`. It always starts with the header; with no nodes, or
    with every request rejected, it is the header alone.
   */
  function ImagesCsv(nodes: seq<Node>, artists: (nat, seq<string>) -> Settled): (text: string)
    ensures "id,image_url\n" <= text
    ensures (forall i :: 0 <= i < |Groups(nodes)| ==> artists(i, Groups(nodes)[i]) == Rejected) ==>
      text == "id,image_url\n"
  {
    var results := Settle(nodes, artists);
    assert (forall i :: 0 <= i < |Groups(nodes)| ==> artists(i, Groups(nodes)[i]) == Rejected) ==>
      Merge(results) == [] by {
      if |Merge(results)| > 0 {
        assert Merge(results)[0] in Merge(results);
      }
    }
    Csv(Images(nodes, artists))
  }

  /** An id has a pair exactly when some merged artist has that id. */
  lemma PairsKeys(merged: seq<ArtistRecord>, id: string)
    ensures HasKey(Pairs(merged), id) <==> exists a :: a in merged && a.id == id
  {
    var ps := Pairs(merged);
    if exists a :: a in merged && a.id == id {
      var a :| a in merged && a.id == id;
      var m :| 0 <= m < |merged| && merged[m] == a;
      assert ps[m].key == id;
    }
  }

  /** An artist is merged exactly when the request of some batch returned it. */
  lemma SettleMerged(nodes: seq<Node>, artists: (nat, seq<string>) -> Settled, a: ArtistRecord)
    ensures a in Merge(Settle(nodes, artists)) <==>
      exists i :: 0 <= i < |Groups(nodes)| && a in Contribution(artists(i, Groups(nodes)[i]))
  {
    var results := Settle(nodes, artists);
    assert forall i :: 0 <= i < |results| ==> results[i] == artists(i, Groups(nodes)[i]);
  }

  /**
    The ids in the written object are exactly the ids of the artists that some fulfilled
    request returned.
   */
  lemma ImagesKeys(nodes: seq<Node>, artists: (nat, seq<string>) -> Settled, id: string)
    ensures HasKey(Images(nodes, artists), id) <==>
      exists i, a :: 0 <= i < |Groups(nodes)| && a in Contribution(artists(i, Groups(nodes)[i])) && a.id == id
  {
    var merged := Merge(Settle(nodes, artists));
    FromEntriesLaterWins(Pairs(merged), id);
    PairsKeys(merged, id);
    forall a
      ensures a in merged <==> exists i :: 0 <= i < |Groups(nodes)| && a in Contribution(artists(i, Groups(nodes)[i]))
    {
      SettleMerged(nodes, artists, a);
    }
  }
}
