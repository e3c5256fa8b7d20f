/** The exact-key search index: segments cut along the nibbles of a key's digest, only as
    deep as their size requires (`buildExactSearchSegments`,
    application/catalog/search_model.go), and the lookup that reads at most one of them
    (`loadExactMatches` and `exactSearchBucket`, application/catalog/search.go).
 */
module ExactSearch {
  import opened Wrappers
  import opened Ordering

  datatype Match = Match(record: nat, priority: nat)

  datatype Entry = Entry(key: string, matches: seq<Match>)

  datatype Bucket = Bucket(prefix: string, entries: seq<Entry>)

  const DIGEST_LENGTH := 64

  const HEX := "0123456789abcdef"

  /** The length of the JSON of a segment without entries. */
  const EMPTY_SEGMENT := 50

  /** SHA-256 in hexadecimal, the JSON length of an entry, and the segment limit. */
  datatype Index = Index(hash: string -> string, sizeOf: Entry -> nat, limit: nat)

  ghost predicate HexDigest(d: string)
  {
    |d| == DIGEST_LENGTH && forall i :: 0 <= i < |d| ==> d[i] in HEX
  }

  ghost predicate Hashes(x: Index)
  {
    forall key :: HexDigest(x.hash(key))
  }

  // ---------------------------------------------------------------- sizes

  /** The bytes of the entries and of the commas between them. */
  function Joined(x: Index, entries: seq<Entry>): nat
  {
    if entries == [] then 0
    else if |entries| == 1 then x.sizeOf(entries[0])
    else x.sizeOf(entries[0]) + 1 + Joined(x, entries[1..])
  }

  /** The length of the segment's JSON: the brackets of the empty list stay. */
  function Encoded(x: Index, entries: seq<Entry>): nat
  {
    EMPTY_SEGMENT + Joined(x, entries)
  }

  /** `exactSearchSegmentSize`. */
  function Estimated(x: Index, entries: seq<Entry>): nat
  {
    EMPTY_SEGMENT - 2 + Joined(x, entries)
  }

  // ---------------------------------------------------------------- building

  predicate KeyLe(a: Entry, b: Entry)
  {
    LexLe(a.key, b.key)
  }

  /** The entries whose digest has `c` at position `depth`. */
  function Group(x: Index, entries: seq<Entry>, depth: nat, c: char): seq<Entry>
  {
    if entries == [] then []
    else
      var d := x.hash(entries[0].key);
      (if depth < |d| && d[depth] == c then [entries[0]] else []) + Group(x, entries[1..], depth, c)
  }

  /** `emit`: one segment if it fits, else one subtree for each next nibble in use. */
  function Emit(x: Index, prefix: string, entries: seq<Entry>): Option<seq<Bucket>>
    decreases DIGEST_LENGTH - |prefix|, 17
  {
    var sorted := Sort(KeyLe, entries);
    if Estimated(x, sorted) <= x.limit then
      if Encoded(x, sorted) > x.limit then None else Some([Bucket(prefix, sorted)])
    else if |prefix| >= DIGEST_LENGTH then None
    else EmitChildren(x, prefix, sorted, 0)
  }

  /** Lines 344-351, from nibble `n` on. */
  function EmitChildren(x: Index, prefix: string, entries: seq<Entry>, n: nat): Option<seq<Bucket>>
    requires n <= 16 && |prefix| < DIGEST_LENGTH
    decreases DIGEST_LENGTH - |prefix|, 16 - n
  {
    if n == 16 then Some([])
    else
      var group := Group(x, entries, |prefix|, HEX[n]);
      if group == [] then EmitChildren(x, prefix, entries, n + 1)
      else
        match Emit(x, prefix + [HEX[n]], group)
        case None => None
        case Some(here) =>
          match EmitChildren(x, prefix, entries, n + 1)
          case None => None
          case Some(rest) => Some(here + rest)
  }

  /** The segments of an index: one subtree for each first nibble in use. */
  function Build(x: Index, entries: seq<Entry>): Option<seq<Bucket>>
  {
    EmitChildren(x, "", entries, 0)
  }

  // ---------------------------------------------------------------- what the segments hold

  lemma {:induction false} GroupMembers(x: Index, entries: seq<Entry>, depth: nat, c: char)
    ensures forall e :: e in Group(x, entries, depth, c) <==>
      e in entries && depth < |x.hash(e.key)| && x.hash(e.key)[depth] == c
  {
    if entries != [] {
      GroupMembers(x, entries[1..], depth, c);
      assert entries == [entries[0]] + entries[1..];
    }
  }

  lemma SortMembers(entries: seq<Entry>)
    ensures forall e :: e in Sort(KeyLe, entries) <==> e in entries
  {
    forall e ensures e in Sort(KeyLe, entries) <==> e in entries {
      assert e in multiset(entries) <==> e in entries;
      assert e in multiset(Sort(KeyLe, entries)) <==> e in Sort(KeyLe, entries);
    }
  }

  /** All entries belong under `prefix`. */
  ghost predicate Under(x: Index, prefix: string, entries: seq<Entry>)
  {
    forall e :: e in entries ==> prefix <= x.hash(e.key)
  }

  lemma {:induction false} GroupUnder(x: Index, prefix: string, entries: seq<Entry>, c: char)
    requires Under(x, prefix, entries)
    ensures Under(x, prefix + [c], Group(x, entries, |prefix|, c))
  {
    GroupMembers(x, entries, |prefix|, c);
    forall e | e in Group(x, entries, |prefix|, c) ensures prefix + [c] <= x.hash(e.key) {
      var d := x.hash(e.key);
      assert d[..|prefix|] == prefix;
      assert d[..|prefix| + 1] == prefix + [c];
    }
  }

  /** Each key occurs once. */
  ghost predicate KeysUnique(entries: seq<Entry>)
  {
    Distinct(entries) && forall e, f :: e in entries && f in entries && e.key == f.key ==> e == f
  }

  lemma {:induction false} GroupDistinct(x: Index, entries: seq<Entry>, depth: nat, c: char)
    requires Distinct(entries)
    ensures Distinct(Group(x, entries, depth, c))
  {
    if entries != [] {
      var rest := entries[1..];
      forall i, j | 0 <= i < |rest| && 0 <= j < |rest| && rest[i] == rest[j] ensures i == j {
        assert entries[i + 1] == entries[j + 1];
      }
      GroupDistinct(x, rest, depth, c);
      GroupMembers(x, rest, depth, c);
      assert entries[0] !in rest;
    }
  }

  lemma {:induction false} GroupKeysUnique(x: Index, entries: seq<Entry>, depth: nat, c: char)
    requires KeysUnique(entries)
    ensures KeysUnique(Group(x, entries, depth, c))
  {
    GroupDistinct(x, entries, depth, c);
    GroupMembers(x, entries, depth, c);
  }

  lemma {:induction false} SortKeysUnique(entries: seq<Entry>)
    requires KeysUnique(entries)
    ensures KeysUnique(Sort(KeyLe, entries))
  {
    SortMembers(entries);
    PermutationDistinct(entries, Sort(KeyLe, entries));
  }

  lemma KeyLeIsTotalPreorder()
    ensures TotalPreorder(KeyLe)
  {
    forall a, b ensures KeyLe(a, b) || KeyLe(b, a) { LexTotal(a.key, b.key); }
    forall a, b, c | KeyLe(a, b) && KeyLe(b, c) ensures KeyLe(a, c) { LexTransitive(a.key, b.key, c.key); }
  }

  /** A bucket under `prefix` holds some of the entries, all with digests under its own
      prefix, in the order of their keys and within the segment limit. */
  ghost predicate Holds(x: Index, prefix: string, entries: seq<Entry>, b: Bucket)
  {
    && prefix <= b.prefix && |b.prefix| <= DIGEST_LENGTH
    && Under(x, b.prefix, b.entries) && (forall e :: e in b.entries ==> e in entries)
    && SortedBy(KeyLe, b.entries) && KeysUnique(b.entries)
    && Encoded(x, b.entries) <= x.limit
  }

  lemma {:induction false} EmitHolds(x: Index, prefix: string, entries: seq<Entry>, b: Bucket)
    requires |prefix| <= DIGEST_LENGTH && Under(x, prefix, entries) && KeysUnique(entries)
    requires Emit(x, prefix, entries).Some? && b in Emit(x, prefix, entries).value
    ensures Holds(x, prefix, entries, b)
    decreases DIGEST_LENGTH - |prefix|, 17
  {
    var sorted := Sort(KeyLe, entries);
    SortMembers(entries);
    SortKeysUnique(entries);
    if Estimated(x, sorted) > x.limit {
      EmitChildrenHolds(x, prefix, sorted, 0, b);
    } else {
      KeyLeIsTotalPreorder();
      SortSorts(KeyLe, entries);
    }
  }

  lemma {:induction false} EmitChildrenHolds(x: Index, prefix: string, entries: seq<Entry>, n: nat, b: Bucket)
    requires n <= 16 && |prefix| < DIGEST_LENGTH && Under(x, prefix, entries) && KeysUnique(entries)
    requires EmitChildren(x, prefix, entries, n).Some? && b in EmitChildren(x, prefix, entries, n).value
    ensures Holds(x, prefix, entries, b)
    ensures exists m :: n <= m < 16 && prefix + [HEX[m]] <= b.prefix
    decreases DIGEST_LENGTH - |prefix|, 16 - n
  {
    var group := Group(x, entries, |prefix|, HEX[n]);
    if group != [] && b in Emit(x, prefix + [HEX[n]], group).value {
      GroupUnder(x, prefix, entries, HEX[n]);
      GroupKeysUnique(x, entries, |prefix|, HEX[n]);
      EmitHolds(x, prefix + [HEX[n]], group, b);
      GroupMembers(x, entries, |prefix|, HEX[n]);
    } else {
      EmitChildrenHolds(x, prefix, entries, n + 1, b);
    }
  }

  /** Every entry is in some bucket. */
  lemma {:induction false} EmitFinds(x: Index, prefix: string, entries: seq<Entry>, e: Entry)
    requires Hashes(x) && |prefix| <= DIGEST_LENGTH && e in entries && Emit(x, prefix, entries).Some?
    ensures exists b :: b in Emit(x, prefix, entries).value && e in b.entries
    decreases DIGEST_LENGTH - |prefix|, 17
  {
    var sorted := Sort(KeyLe, entries);
    SortMembers(entries);
    if Estimated(x, sorted) > x.limit {
      var c := x.hash(e.key)[|prefix|];
      var m :| 0 <= m < 16 && HEX[m] == c;
      EmitChildrenFinds(x, prefix, sorted, 0, e, m);
    } else {
      assert Bucket(prefix, sorted) in Emit(x, prefix, entries).value;
    }
  }

  lemma {:induction false} EmitChildrenFinds(
    x: Index, prefix: string, entries: seq<Entry>, n: nat, e: Entry, m: nat)
    requires Hashes(x) && n <= m < 16 && |prefix| < DIGEST_LENGTH
    requires e in entries && x.hash(e.key)[|prefix|] == HEX[m]
    requires EmitChildren(x, prefix, entries, n).Some?
    ensures exists b :: b in EmitChildren(x, prefix, entries, n).value && e in b.entries
    decreases DIGEST_LENGTH - |prefix|, 16 - n
  {
    var all := EmitChildren(x, prefix, entries, n).value;
    var group := Group(x, entries, |prefix|, HEX[n]);
    GroupMembers(x, entries, |prefix|, HEX[n]);
    if n == m {
      assert e in group;
      EmitFinds(x, prefix + [HEX[n]], group, e);
      var b :| b in Emit(x, prefix + [HEX[n]], group).value && e in b.entries;
      assert b in all;
    } else {
      EmitChildrenFinds(x, prefix, entries, n + 1, e, m);
      var b :| b in EmitChildren(x, prefix, entries, n + 1).value && e in b.entries;
      assert b in all;
    }
  }

  /** Bucket prefixes are strictly sorted, and none is the beginning of another. */
  ghost predicate PrefixFree(buckets: seq<Bucket>)
  {
    forall i, j :: 0 <= i < j < |buckets| ==>
      && LexLess(buckets[i].prefix, buckets[j].prefix)
      && !(buckets[i].prefix <= buckets[j].prefix) && !(buckets[j].prefix <= buckets[i].prefix)
  }

  lemma {:induction false} EmitPrefixFree(x: Index, prefix: string, entries: seq<Entry>)
    requires |prefix| <= DIGEST_LENGTH && Under(x, prefix, entries) && KeysUnique(entries)
    requires Emit(x, prefix, entries).Some?
    ensures PrefixFree(Emit(x, prefix, entries).value)
    decreases DIGEST_LENGTH - |prefix|, 17
  {
    var sorted := Sort(KeyLe, entries);
    if Estimated(x, sorted) > x.limit {
      SortMembers(entries);
      SortKeysUnique(entries);
      EmitChildrenPrefixFree(x, prefix, sorted, 0);
    }
  }

  lemma {:induction false} EmitChildrenPrefixFree(x: Index, prefix: string, entries: seq<Entry>, n: nat)
    requires n <= 16 && |prefix| < DIGEST_LENGTH && Under(x, prefix, entries) && KeysUnique(entries)
    requires EmitChildren(x, prefix, entries, n).Some?
    ensures PrefixFree(EmitChildren(x, prefix, entries, n).value)
    decreases DIGEST_LENGTH - |prefix|, 16 - n
  {
    if n < 16 {
      var group := Group(x, entries, |prefix|, HEX[n]);
      EmitChildrenPrefixFree(x, prefix, entries, n + 1);
      if group != [] {
        GroupUnder(x, prefix, entries, HEX[n]);
        GroupKeysUnique(x, entries, |prefix|, HEX[n]);
        EmitPrefixFree(x, prefix + [HEX[n]], group);
        var here, rest := Emit(x, prefix + [HEX[n]], group).value, EmitChildren(x, prefix, entries, n + 1).value;
        forall a, b | a in here && b in rest
          ensures LexLess(a.prefix, b.prefix) && !(a.prefix <= b.prefix) && !(b.prefix <= a.prefix)
        {
          EmitHolds(x, prefix + [HEX[n]], group, a);
          EmitChildrenHolds(x, prefix, entries, n + 1, b);
          var m :| n + 1 <= m < 16 && prefix + [HEX[m]] <= b.prefix;
          NextNibble(prefix, n, m);
          LexApart(prefix + [HEX[n]], prefix + [HEX[m]], a.prefix, b.prefix);
        }
        JoinPrefixFree(here, rest);
      }
    }
  }

  lemma {:induction false} JoinPrefixFree(here: seq<Bucket>, rest: seq<Bucket>)
    requires PrefixFree(here) && PrefixFree(rest)
    requires forall a, b :: a in here && b in rest ==>
      LexLess(a.prefix, b.prefix) && !(a.prefix <= b.prefix) && !(b.prefix <= a.prefix)
    ensures PrefixFree(here + rest)
  {
  }

  lemma {:induction false} NextNibble(prefix: string, n: nat, m: nat)
    requires n < m < 16
    ensures LexLess(prefix + [HEX[n]], prefix + [HEX[m]])
  {
    if prefix != [] {
      NextNibble(prefix[1..], n, m);
      assert (prefix + [HEX[n]])[1..] == prefix[1..] + [HEX[n]];
      assert (prefix + [HEX[m]])[1..] == prefix[1..] + [HEX[m]];
    }
  }

  // ---------------------------------------------------------------- the index and its lookup

  /** Lines 274-279: by priority, then by record. */
  predicate MatchLe(a: Match, b: Match)
  {
    a.priority < b.priority || (a.priority == b.priority && a.record <= b.record)
  }

  /** The matches of a key in the one order that the index stores them in. */
  function Ranked(matches: seq<Match>): seq<Match>
  {
    Sort(MatchLe, matches)
  }

  lemma MatchLeIsTotalOrder()
    ensures TotalOrder(MatchLe)
  {
  }

  /** The order in which a Go map lists the matches of a key does not matter. */
  lemma RankedIsCanonical(matches: seq<Match>, others: seq<Match>)
    requires multiset(matches) == multiset(others)
    ensures Ranked(matches) == Ranked(others) && SortedBy(MatchLe, Ranked(matches))
    ensures multiset(Ranked(matches)) == multiset(matches)
    ensures forall i, j :: 0 <= i < j < |matches| ==>
      var a, b := Ranked(matches)[i], Ranked(matches)[j];
      a.priority < b.priority || (a.priority == b.priority && a.record <= b.record)
  {
    MatchLeIsTotalOrder();
    SortSorts(MatchLe, matches);
    SortSorts(MatchLe, others);
    SortedUnique(MatchLe, Ranked(matches), Ranked(others));
  }

  function PrefixesOf(buckets: seq<Bucket>): seq<string>
  {
    seq(|buckets|, i requires 0 <= i < |buckets| => buckets[i].prefix)
  }

  function KeysOf(entries: seq<Entry>): seq<string>
  {
    seq(|entries|, i requires 0 <= i < |entries| => entries[i].key)
  }

  /** The buckets are an index of `matches`: every key is in the bucket its digest leads
      to, with its matches, and buckets hold nothing else. */
  ghost predicate Indexes(x: Index, buckets: seq<Bucket>, matches: map<string, seq<Match>>)
  {
    && PrefixFree(buckets)
    && (forall b :: b in buckets ==> b.prefix != "" && StrictlySorted(KeysOf(b.entries)))
    && (forall b, e :: b in buckets && e in b.entries ==>
      b.prefix <= x.hash(e.key) && e.key in matches && e.matches == Ranked(matches[e.key]))
    && (forall key :: key in matches ==>
      exists b :: b in buckets && Entry(key, Ranked(matches[key])) in b.entries)
  }

  /** `entries` lists the keys and ranked matches of a map, in any order. */
  ghost predicate Lists(entries: seq<Entry>, matches: map<string, seq<Match>>)
  {
    && Distinct(entries)
    && (forall e :: e in entries ==> e.key in matches && e.matches == Ranked(matches[e.key]))
    && (forall key :: key in matches ==> Entry(key, Ranked(matches[key])) in entries)
  }

  lemma {:induction false} StrictKeys(entries: seq<Entry>)
    requires SortedBy(KeyLe, entries) && KeysUnique(entries)
    ensures StrictlySorted(KeysOf(entries))
  {
    var keys := KeysOf(entries);
    forall i, j | 0 <= i < j < |keys| ensures LexLess(keys[i], keys[j]) {
      assert KeyLe(entries[i], entries[j]);
      assert entries[i] != entries[j];
    }
  }

  /** A build that succeeds is an index of the map it was built from. */
  lemma {:induction false} BuildIndexes(x: Index, entries: seq<Entry>, matches: map<string, seq<Match>>)
    requires Hashes(x) && Lists(entries, matches) && Build(x, entries).Some?
    ensures Indexes(x, Build(x, entries).value, matches)
  {
    var buckets := Build(x, entries).value;
    assert KeysUnique(entries) && Under(x, "", entries);
    EmitChildrenPrefixFree(x, "", entries, 0);
    forall b | b in buckets
      ensures b.prefix != "" && StrictlySorted(KeysOf(b.entries)) && Holds(x, "", entries, b)
    {
      EmitChildrenHolds(x, "", entries, 0, b);
      StrictKeys(b.entries);
    }
    forall key | key in matches ensures exists b :: b in buckets && Entry(key, Ranked(matches[key])) in b.entries {
      var e := Entry(key, Ranked(matches[key]));
      var c := x.hash(key)[0];
      assert HexDigest(x.hash(key));
      var m :| 0 <= m < 16 && HEX[m] == c;
      EmitChildrenFinds(x, "", entries, 0, e, m);
    }
  }

  /** `exactSearchBucket`: the longest prefix first. */
  method FindBucket(buckets: seq<Bucket>, digest: string) returns (found: Option<nat>)
    requires PrefixFree(buckets)
    ensures found.Some? ==> found.value < |buckets| && buckets[found.value].prefix <= digest
    ensures found.None? ==> forall b :: b in buckets && b.prefix <= digest ==> b.prefix == ""
  {
    var prefixes := PrefixesOf(buckets);
    var length := |digest|;
    while length > 0
      invariant length <= |digest|
      invariant forall b :: b in buckets && b.prefix <= digest ==> |b.prefix| <= length
    {
      var prefix := digest[..length];
      var index := LowerBound(prefixes, prefix);
      if index < |buckets| && buckets[index].prefix == prefix {
        return Some(index);
      }
      forall b | b in buckets && b.prefix <= digest ensures |b.prefix| < length {
        var i :| 0 <= i < |buckets| && buckets[i] == b;
        assert b.prefix == prefixes[i];
        if |b.prefix| == length {
          assert b.prefix == prefix;
          NotAtLowerBound(prefixes, prefix, index, i);
        }
      }
      length := length - 1;
    }
    return None;
  }

  lemma {:induction false} NotAtLowerBound(keys: seq<string>, key: string, k: nat, i: nat)
    requires StrictlySorted(keys) && k <= |keys| && i < |keys| && keys[i] == key
    requires forall j :: 0 <= j < k ==> LexLess(keys[j], key)
    requires forall j :: k <= j < |keys| ==> LexLe(key, keys[j])
    ensures k < |keys| && keys[k] == key
  {
    if k < i {
      LexAntisymmetric(key, keys[k]);
    }
  }

  /** `loadExactMatches`: at most one segment is read, and what comes back is exactly what
      the map holds for the key, or nothing if it holds nothing. */
  method Lookup(x: Index, buckets: seq<Bucket>, key: string, ghost matches: map<string, seq<Match>>)
    returns (r: Option<seq<Match>>)
    requires Indexes(x, buckets, matches)
    ensures r == if key in matches then Some(Ranked(matches[key])) else None
  {
    var found := FindBucket(buckets, x.hash(key));
    if found.None? {
      return None;
    }
    var segment := buckets[found.value].entries;
    OnlyInBucket(x, buckets, found.value, key, matches);
    var index := LowerBound(KeysOf(segment), key);
    forall i | 0 <= i < |segment| && segment[i].key == key ensures index < |segment| && segment[index].key == key {
      NotAtLowerBound(KeysOf(segment), key, index, i);
    }
    if index == |segment| || segment[index].key != key {
      return None;
    }
    assert segment[index] in segment;
    return Some(segment[index].matches);
  }

  /** A key with matches is in the bucket whose prefix its digest has. */
  lemma {:induction false} OnlyInBucket(
    x: Index, buckets: seq<Bucket>, i: nat, key: string, matches: map<string, seq<Match>>)
    requires Indexes(x, buckets, matches) && i < |buckets| && buckets[i].prefix <= x.hash(key)
    ensures key in matches ==> Entry(key, Ranked(matches[key])) in buckets[i].entries
  {
    if key in matches {
      var b :| b in buckets && Entry(key, Ranked(matches[key])) in b.entries;
      var j :| 0 <= j < |buckets| && buckets[j] == b;
      PrefixesComparable(buckets[i].prefix, b.prefix, x.hash(key));
    }
  }

  lemma PrefixesComparable(a: string, b: string, d: string)
    requires a <= d && b <= d
    ensures a <= b || b <= a
  {
  }

  // ---------------------------------------------------------------- the build as it runs

  method EmitSegments(x: Index, prefix: string, entries: seq<Entry>) returns (r: Option<seq<Bucket>>)
    ensures r == Emit(x, prefix, entries)
    decreases DIGEST_LENGTH - |prefix|, 1
  {
    var sorted := Sort(KeyLe, entries);
    if Estimated(x, sorted) <= x.limit {
      if Encoded(x, sorted) > x.limit {
        return None;
      }
      return Some([Bucket(prefix, sorted)]);
    }
    if |prefix| >= DIGEST_LENGTH {
      return None;
    }
    r := EmitByNibble(x, prefix, sorted);
  }

  method EmitByNibble(x: Index, prefix: string, entries: seq<Entry>) returns (r: Option<seq<Bucket>>)
    requires |prefix| < DIGEST_LENGTH
    ensures r == EmitChildren(x, prefix, entries, 0)
    decreases DIGEST_LENGTH - |prefix|, 0
  {
    var artifacts: seq<Bucket> := [];
    var nibble := 0;
    assert forall more: seq<Bucket> :: artifacts + more == more;
    while nibble < 16
      invariant nibble <= 16
      invariant EmitChildren(x, prefix, entries, 0) == After(artifacts, EmitChildren(x, prefix, entries, nibble))
    {
      var group := Group(x, entries, |prefix|, HEX[nibble]);
      if group != [] {
        var here := EmitSegments(x, prefix + [HEX[nibble]], group);
        if here.None? {
          return None;
        }
        AfterAfter(artifacts, here.value, EmitChildren(x, prefix, entries, nibble + 1));
        artifacts := artifacts + here.value;
      }
      nibble := nibble + 1;
    }
    assert artifacts + [] == artifacts;
    return Some(artifacts);
  }

  /** What a loop ends in that has emitted `done` and has `rest` to come. */
  function After(done: seq<Bucket>, rest: Option<seq<Bucket>>): Option<seq<Bucket>>
  {
    match rest case None => None case Some(more) => Some(done + more)
  }

  lemma AfterAfter(done: seq<Bucket>, here: seq<Bucket>, rest: Option<seq<Bucket>>)
    ensures After(done, After(here, rest)) == After(done + here, rest)
  {
    if rest.Some? {
      assert done + (here + rest.value) == done + here + rest.value;
    }
  }

  predicate PrefixLe(a: Bucket, b: Bucket)
  {
    LexLe(a.prefix, b.prefix)
  }

  /** The segments come out in order: the final sort changes nothing. */
  lemma {:induction false} SortIsIdle(buckets: seq<Bucket>)
    requires PrefixFree(buckets)
    ensures Sort(PrefixLe, buckets) == buckets
  {
    if buckets != [] {
      PrefixFreeTail(buckets);
      SortIsIdle(buckets[1..]);
      var rest := buckets[1..];
      assert buckets == [buckets[0]] + rest;
      InsertInFront(buckets[0], rest);
    }
  }

  lemma {:induction false} InsertInFront(b: Bucket, rest: seq<Bucket>)
    requires rest != [] ==> LexLe(b.prefix, rest[0].prefix)
    ensures Insert(PrefixLe, b, rest) == [b] + rest
  {
    assert [b] + [] == [b];
  }

  lemma {:induction false} PrefixFreeTail(buckets: seq<Bucket>)
    requires PrefixFree(buckets) && buckets != []
    ensures PrefixFree(buckets[1..]) && (|buckets| > 1 ==> LexLe(buckets[0].prefix, buckets[1..][0].prefix))
  {
    forall i, j | 0 <= i < j < |buckets[1..]|
      ensures
        && LexLess(buckets[1..][i].prefix, buckets[1..][j].prefix)
        && !(buckets[1..][i].prefix <= buckets[1..][j].prefix) && !(buckets[1..][j].prefix <= buckets[1..][i].prefix)
    {
      assert buckets[1..][i] == buckets[i + 1] && buckets[1..][j] == buckets[j + 1];
    }
  }

  /** `buildExactSearchSegments`. */
  method BuildSegments(x: Index, matches: map<string, seq<Match>>)
    returns (r: Option<seq<Bucket>>, ghost entries: seq<Entry>)
    requires Hashes(x)
    ensures Lists(entries, matches) && r == Build(x, entries)
    ensures r.Some? ==> Indexes(x, r.value, matches)
  {
    var listed: seq<Entry> := [];
    var pending := matches.Keys;
    while pending != {}
      invariant pending <= matches.Keys && Distinct(listed)
      invariant forall e :: e in listed ==>
        e.key in matches && e.key !in pending && e.matches == Ranked(matches[e.key])
      invariant forall key :: key in matches && key !in pending ==> Entry(key, Ranked(matches[key])) in listed
      decreases pending
    {
      var key :| key in pending;
      var entry := Entry(key, Ranked(matches[key]));
      assert entry !in listed;
      listed := listed + [entry];
      pending := pending - {key};
    }
    entries := listed;
    r := EmitByNibble(x, "", listed);
    if r.Some? {
      BuildIndexes(x, listed, matches);
      SortIsIdle(r.value);
      r := Some(Sort(PrefixLe, r.value));
    }
  }

  // ---------------------------------------------------------------- when a build fails

  predicate SameStart(x: Index, e: Entry, f: Entry, k: nat)
  {
    |x.hash(e.key)| >= k && |x.hash(f.key)| >= k && x.hash(e.key)[..k] == x.hash(f.key)[..k]
  }

  /** The entries whose digests share their first `k` nibbles with that of `e`. */
  function Sharing(x: Index, entries: seq<Entry>, e: Entry, k: nat): seq<Entry>
  {
    if entries == [] then []
    else (if SameStart(x, entries[0], e, k) then [entries[0]] else []) + Sharing(x, entries[1..], e, k)
  }

  /** The bytes of the entries, with a comma after each. */
  function Total(x: Index, entries: seq<Entry>): nat
  {
    if entries == [] then 0 else x.sizeOf(entries[0]) + 1 + Total(x, entries[1..])
  }

  lemma {:induction false} JoinedTotal(x: Index, entries: seq<Entry>)
    requires entries != []
    ensures Joined(x, entries) + 1 == Total(x, entries)
  {
    if |entries| > 1 {
      JoinedTotal(x, entries[1..]);
    }
  }

  lemma {:induction false} SharingInsert(x: Index, f: Entry, entries: seq<Entry>, e: Entry, k: nat)
    ensures Total(x, Sharing(x, Insert(KeyLe, f, entries), e, k)) ==
      Total(x, Sharing(x, entries, e, k)) + Total(x, if SameStart(x, f, e, k) then [f] else [])
  {
    var some := if SameStart(x, f, e, k) then [f] else [];
    if entries == [] || KeyLe(f, entries[0]) {
      assert Insert(KeyLe, f, entries) == [f] + entries;
      TotalConcat(x, some, Sharing(x, entries, e, k));
    } else {
      var head := if SameStart(x, entries[0], e, k) then [entries[0]] else [];
      SharingInsert(x, f, entries[1..], e, k);
      assert Insert(KeyLe, f, entries)[1..] == Insert(KeyLe, f, entries[1..]);
      TotalConcat(x, head, Sharing(x, Insert(KeyLe, f, entries[1..]), e, k));
      TotalConcat(x, head, Sharing(x, entries[1..], e, k));
    }
  }

  lemma {:induction false} TotalConcat(x: Index, a: seq<Entry>, b: seq<Entry>)
    ensures Total(x, a + b) == Total(x, a) + Total(x, b)
  {
    if a != [] {
      TotalConcat(x, a[1..], b);
      assert (a + b)[1..] == a[1..] + b;
    } else {
      assert a + b == b;
    }
  }

  lemma {:induction false} SharingSort(x: Index, entries: seq<Entry>, e: Entry, k: nat)
    ensures Total(x, Sharing(x, Sort(KeyLe, entries), e, k)) == Total(x, Sharing(x, entries, e, k))
  {
    if entries != [] {
      SharingSort(x, entries[1..], e, k);
      SharingInsert(x, entries[0], Sort(KeyLe, entries[1..]), e, k);
      TotalConcat(x, if SameStart(x, entries[0], e, k) then [entries[0]] else [], Sharing(x, entries[1..], e, k));
    }
  }

  lemma {:induction false} SharingAll(x: Index, prefix: string, entries: seq<Entry>, e: Entry)
    requires Under(x, prefix, entries) && prefix <= x.hash(e.key)
    ensures Sharing(x, entries, e, |prefix|) == entries
  {
    if entries != [] {
      SharingAll(x, prefix, entries[1..], e);
      var d, d' := x.hash(entries[0].key), x.hash(e.key);
      assert entries[0] in entries;
      assert d[..|prefix|] == prefix && d'[..|prefix|] == prefix;
      assert entries == [entries[0]] + entries[1..];
    }
  }

  lemma {:induction false} SharingSmaller(x: Index, entries: seq<Entry>, e: Entry, k: nat)
    ensures Total(x, Sharing(x, entries, e, k)) <= Total(x, entries)
  {
    if entries != [] {
      SharingSmaller(x, entries[1..], e, k);
      TotalConcat(x, if SameStart(x, entries[0], e, k) then [entries[0]] else [], Sharing(x, entries[1..], e, k));
    }
  }

  /** Beyond depth `|prefix|`, the entries that share a longer start are all in one group. */
  lemma {:induction false} SharingGroup(x: Index, depth: nat, entries: seq<Entry>, c: char, e: Entry, k: nat)
    requires depth < k <= |x.hash(e.key)| && x.hash(e.key)[depth] == c
    ensures Sharing(x, Group(x, entries, depth, c), e, k) == Sharing(x, entries, e, k)
  {
    if entries != [] {
      SharingGroup(x, depth, entries[1..], c, e, k);
      var f, d := entries[0], x.hash(entries[0].key);
      if SameStart(x, f, e, k) {
        assert d[depth] == d[..k][depth] == x.hash(e.key)[..k][depth] == c;
      }
      if depth < |d| && d[depth] == c {
        var rest := Group(x, entries[1..], depth, c);
        assert Group(x, entries, depth, c) == [f] + rest;
        assert Group(x, entries, depth, c)[1..] == rest;
      } else {
        assert Group(x, entries, depth, c) == Group(x, entries[1..], depth, c);
      }
    }
  }

  /** The total, with a comma too many, of a segment whose JSON is over the limit although
      it is not split: it was estimated two bytes short, or no nibble is left. */
  predicate Refused(x: Index, total: nat, k: nat)
  {
    EMPTY_SEGMENT + total > x.limit + 1 && (k == DIGEST_LENGTH || EMPTY_SEGMENT - 2 + total <= x.limit + 1)
  }

  /** Some entries sharing `k >= from` nibbles make a refused segment. */
  ghost predicate HasRefused(x: Index, entries: seq<Entry>, from: nat)
  {
    exists e, k: nat :: RefusedAt(x, entries, e, k) && k >= from
  }

  ghost predicate RefusedAt(x: Index, entries: seq<Entry>, e: Entry, k: nat)
  {
    e in entries && k <= DIGEST_LENGTH && Refused(x, Total(x, Sharing(x, entries, e, k)), k)
  }

  lemma {:induction false} RefusedSort(x: Index, entries: seq<Entry>, from: nat)
    ensures HasRefused(x, Sort(KeyLe, entries), from) <==> HasRefused(x, entries, from)
  {
    SortMembers(entries);
    forall e, k ensures RefusedAt(x, Sort(KeyLe, entries), e, k) <==> RefusedAt(x, entries, e, k) {
      SharingSort(x, entries, e, k);
    }
  }

  lemma {:induction false} SortTotal(x: Index, entries: seq<Entry>)
    requires entries != []
    ensures Joined(x, Sort(KeyLe, entries)) + 1 == Total(x, entries)
  {
    JoinedTotal(x, Sort(KeyLe, entries));
    SharingSort(x, entries, entries[0], 0);
    assert Under(x, "", entries) && Under(x, "", Sort(KeyLe, entries));
    SharingAll(x, "", entries, entries[0]);
    SharingAll(x, "", Sort(KeyLe, entries), entries[0]);
  }

  /** A segment that is emitted or refused as it stands. */
  lemma {:induction false} LeafFailsIff(x: Index, prefix: string, entries: seq<Entry>)
    requires |prefix| <= DIGEST_LENGTH && Under(x, prefix, entries) && entries != []
    requires Estimated(x, Sort(KeyLe, entries)) <= x.limit || |prefix| == DIGEST_LENGTH
    ensures Encoded(x, Sort(KeyLe, entries)) > x.limit <==> HasRefused(x, entries, |prefix|)
  {
    SortTotal(x, entries);
    if Encoded(x, Sort(KeyLe, entries)) > x.limit {
      assert entries[0] in entries;
      SharingAll(x, prefix, entries, entries[0]);
      assert RefusedAt(x, entries, entries[0], |prefix|);
    } else {
      forall e, k: nat ensures !RefusedAt(x, entries, e, k) { SharingSmaller(x, entries, e, k); }
    }
  }

  /** A segment that is split is not itself refused. */
  lemma {:induction false} InnerNotRefused(x: Index, prefix: string, entries: seq<Entry>)
    requires |prefix| < DIGEST_LENGTH && Under(x, prefix, entries) && entries != []
    requires Estimated(x, Sort(KeyLe, entries)) > x.limit
    ensures HasRefused(x, entries, |prefix|) <==> HasRefused(x, entries, |prefix| + 1)
  {
    SortTotal(x, entries);
    forall e | e in entries ensures !RefusedAt(x, entries, e, |prefix|) {
      SharingAll(x, prefix, entries, e);
    }
    if HasRefused(x, entries, |prefix|) {
      var e, k: nat :| RefusedAt(x, entries, e, k) && k >= |prefix|;
      assert k >= |prefix| + 1;
    }
  }

  lemma {:induction false} EmitFailsIff(x: Index, prefix: string, entries: seq<Entry>)
    requires Hashes(x) && |prefix| <= DIGEST_LENGTH && Under(x, prefix, entries) && entries != []
    ensures Emit(x, prefix, entries).None? <==> HasRefused(x, entries, |prefix|)
    decreases DIGEST_LENGTH - |prefix|, 18
  {
    var sorted := Sort(KeyLe, entries);
    if Estimated(x, sorted) <= x.limit || |prefix| == DIGEST_LENGTH {
      LeafFailsIff(x, prefix, entries);
    } else {
      SortMembers(entries);
      EmitChildrenFailsIff(x, prefix, sorted);
      RefusedSort(x, entries, |prefix| + 1);
      InnerNotRefused(x, prefix, entries);
    }
  }

  ghost predicate RefusedFrom(x: Index, prefix: string, entries: seq<Entry>, n: nat)
    requires n <= 16
  {
    exists e, k: nat :: RefusedAt(x, entries, e, k) && k > |prefix| && NibbleFrom(x, e, |prefix|, n)
  }

  predicate NibbleFrom(x: Index, e: Entry, depth: nat, n: nat)
    requires n <= 16
  {
    depth < |x.hash(e.key)| && exists m :: n <= m < 16 && HEX[m] == x.hash(e.key)[depth]
  }

  lemma {:induction false} EmitChildrenFailsFrom(x: Index, prefix: string, entries: seq<Entry>, n: nat)
    requires Hashes(x) && n <= 16 && |prefix| < DIGEST_LENGTH && Under(x, prefix, entries)
    ensures EmitChildren(x, prefix, entries, n).None? <==> RefusedFrom(x, prefix, entries, n)
    decreases DIGEST_LENGTH - |prefix|, 16 - n
  {
    if n < 16 {
      var c := HEX[n];
      var group := Group(x, entries, |prefix|, c);
      EmitChildrenFailsFrom(x, prefix, entries, n + 1);
      GroupUnder(x, prefix, entries, c);
      if group != [] {
        EmitFailsIff(x, prefix + [c], group);
      }
      RefusedSplit(x, prefix, entries, n);
    }
  }

  lemma {:induction false} RefusedInGroup(x: Index, depth: nat, entries: seq<Entry>, c: char, e: Entry, k: nat)
    requires Hashes(x) && depth < k && depth < DIGEST_LENGTH && x.hash(e.key)[depth] == c
    ensures RefusedAt(x, Group(x, entries, depth, c), e, k) <==> RefusedAt(x, entries, e, k)
  {
    GroupMembers(x, entries, depth, c);
    if k <= DIGEST_LENGTH {
      assert HexDigest(x.hash(e.key));
      SharingGroup(x, depth, entries, c, e, k);
    }
  }

  lemma {:induction false} RefusedHereOrLater(x: Index, prefix: string, entries: seq<Entry>, n: nat)
    requires Hashes(x) && n < 16 && |prefix| < DIGEST_LENGTH && RefusedFrom(x, prefix, entries, n)
    ensures
      || HasRefused(x, Group(x, entries, |prefix|, HEX[n]), |prefix| + 1)
      || RefusedFrom(x, prefix, entries, n + 1)
  {
    var e, k: nat :| RefusedAt(x, entries, e, k) && k > |prefix| && NibbleFrom(x, e, |prefix|, n);
    if x.hash(e.key)[|prefix|] == HEX[n] {
      RefusedInGroup(x, |prefix|, entries, HEX[n], e, k);
    } else {
      assert NibbleFrom(x, e, |prefix|, n + 1);
    }
  }

  lemma {:induction false} RefusedHere(x: Index, prefix: string, entries: seq<Entry>, n: nat)
    requires Hashes(x) && n < 16 && |prefix| < DIGEST_LENGTH
    requires HasRefused(x, Group(x, entries, |prefix|, HEX[n]), |prefix| + 1)
    ensures RefusedFrom(x, prefix, entries, n)
  {
    var group := Group(x, entries, |prefix|, HEX[n]);
    var e, k: nat :| RefusedAt(x, group, e, k) && k >= |prefix| + 1;
    GroupMembers(x, entries, |prefix|, HEX[n]);
    RefusedInGroup(x, |prefix|, entries, HEX[n], e, k);
    assert NibbleFrom(x, e, |prefix|, n);
  }

  lemma {:induction false} RefusedLater(x: Index, prefix: string, entries: seq<Entry>, n: nat)
    requires n < 16 && RefusedFrom(x, prefix, entries, n + 1)
    ensures RefusedFrom(x, prefix, entries, n)
  {
    var e, k: nat :| RefusedAt(x, entries, e, k) && k > |prefix| && NibbleFrom(x, e, |prefix|, n + 1);
    assert NibbleFrom(x, e, |prefix|, n);
  }

  /** A refused segment lies in the group of nibble `n` or in a later one. */
  lemma {:induction false} RefusedSplit(x: Index, prefix: string, entries: seq<Entry>, n: nat)
    requires Hashes(x) && n < 16 && |prefix| < DIGEST_LENGTH
    ensures RefusedFrom(x, prefix, entries, n) <==>
      || HasRefused(x, Group(x, entries, |prefix|, HEX[n]), |prefix| + 1)
      || RefusedFrom(x, prefix, entries, n + 1)
  {
    if RefusedFrom(x, prefix, entries, n) {
      RefusedHereOrLater(x, prefix, entries, n);
    }
    if HasRefused(x, Group(x, entries, |prefix|, HEX[n]), |prefix| + 1) {
      RefusedHere(x, prefix, entries, n);
    }
    if RefusedFrom(x, prefix, entries, n + 1) {
      RefusedLater(x, prefix, entries, n);
    }
  }

  lemma {:induction false} EmitChildrenFailsIff(x: Index, prefix: string, entries: seq<Entry>)
    requires Hashes(x) && |prefix| < DIGEST_LENGTH && Under(x, prefix, entries)
    ensures EmitChildren(x, prefix, entries, 0).None? <==> HasRefused(x, entries, |prefix| + 1)
    decreases DIGEST_LENGTH - |prefix|, 17
  {
    EmitChildrenFailsFrom(x, prefix, entries, 0);
    forall e ensures NibbleFrom(x, e, |prefix|, 0) {
      assert HexDigest(x.hash(e.key));
    }
    if HasRefused(x, entries, |prefix| + 1) {
      var e, k: nat :| RefusedAt(x, entries, e, k) && k >= |prefix| + 1;
      assert NibbleFrom(x, e, |prefix|, 0);
    }
  }

  /** A build fails exactly when, for some number of nibbles, the entries sharing that many
      make a segment one or two bytes over the limit, or share all of them and are over it. */
  lemma {:induction false} BuildFailsIff(x: Index, entries: seq<Entry>)
    requires Hashes(x)
    ensures Build(x, entries).None? <==> HasRefused(x, entries, 1)
  {
    assert Under(x, "", entries);
    EmitChildrenFailsIff(x, "", entries);
  }

  // ---------------------------------------------------------------- how deep the cut goes

  lemma {:induction false} SharingHasSelf(x: Index, entries: seq<Entry>, e: Entry, k: nat)
    requires e in entries && |x.hash(e.key)| >= k
    ensures Sharing(x, entries, e, k) != []
  {
    if entries[0] != e {
      assert entries == [entries[0]] + entries[1..];
      SharingHasSelf(x, entries[1..], e, k);
    }
  }

  lemma {:induction false} EstimateOfSharing(x: Index, entries: seq<Entry>, e: Entry, k: nat)
    requires e in entries && |x.hash(e.key)| >= k
    ensures Estimated(x, Sharing(x, entries, e, k)) == EMPTY_SEGMENT - 2 + Total(x, Sharing(x, entries, e, k)) - 1
  {
    SharingHasSelf(x, entries, e, k);
    JoinedTotal(x, Sharing(x, entries, e, k));
  }

  /** The entries that share `k` nibbles with `e` are over the limit, as the preflight estimates
      them. */
  ghost predicate IsTooLarge(x: Index, entries: seq<Entry>, e: Entry, k: nat)
  {
    Estimated(x, Sharing(x, entries, e, k)) > x.limit
  }

  /** Sorting and grouping do not change who shares a longer start. */
  lemma {:induction false} TooLargeSort(x: Index, entries: seq<Entry>, e: Entry, k: nat)
    requires e in entries && |x.hash(e.key)| >= k
    ensures IsTooLarge(x, Sort(KeyLe, entries), e, k) <==> IsTooLarge(x, entries, e, k)
  {
    SortMembers(entries);
    SharingSort(x, entries, e, k);
    EstimateOfSharing(x, entries, e, k);
    EstimateOfSharing(x, Sort(KeyLe, entries), e, k);
  }

  /** A group that is split is too large. */
  lemma {:induction false} SplitIsTooLarge(x: Index, prefix: string, entries: seq<Entry>, e: Entry)
    requires Under(x, prefix, entries) && e in entries && Estimated(x, Sort(KeyLe, entries)) > x.limit
    ensures IsTooLarge(x, entries, e, |prefix|)
  {
    SharingAll(x, prefix, entries, e);
    SortTotal(x, entries);
    JoinedTotal(x, entries);
  }

  lemma {:induction false} EmitIsShallow(x: Index, prefix: string, entries: seq<Entry>, b: Bucket, e: Entry, k: nat)
    requires Hashes(x) && |prefix| <= DIGEST_LENGTH && Under(x, prefix, entries) && KeysUnique(entries)
    requires Emit(x, prefix, entries).Some? && b in Emit(x, prefix, entries).value && e in b.entries
    requires |prefix| <= k < |b.prefix|
    ensures IsTooLarge(x, entries, e, k)
    decreases DIGEST_LENGTH - |prefix|, 17
  {
    var sorted := Sort(KeyLe, entries);
    SortMembers(entries);
    SortKeysUnique(entries);
    EmitHolds(x, prefix, entries, b);
    assert HexDigest(x.hash(e.key));
    if k == |prefix| {
      SplitIsTooLarge(x, prefix, entries, e);
    } else {
      EmitChildrenAreShallow(x, prefix, sorted, b, e, k);
      TooLargeSort(x, entries, e, k);
    }
  }

  /** A bucket comes from the group of one nibble. */
  lemma {:induction false} NibbleOf(x: Index, prefix: string, entries: seq<Entry>, n: nat, b: Bucket) returns (m: nat)
    requires n <= 16 && |prefix| < DIGEST_LENGTH
    requires EmitChildren(x, prefix, entries, n).Some? && b in EmitChildren(x, prefix, entries, n).value
    ensures n <= m < 16 && Group(x, entries, |prefix|, HEX[m]) != []
    ensures var r := Emit(x, prefix + [HEX[m]], Group(x, entries, |prefix|, HEX[m])); r.Some? && b in r.value
    decreases 16 - n
  {
    var group := Group(x, entries, |prefix|, HEX[n]);
    if group != [] && b in Emit(x, prefix + [HEX[n]], group).value {
      m := n;
    } else {
      m := NibbleOf(x, prefix, entries, n + 1, b);
    }
  }

  lemma {:induction false} EmitChildrenAreShallow(x: Index, prefix: string, entries: seq<Entry>, b: Bucket, e: Entry, k: nat)
    requires Hashes(x) && |prefix| < DIGEST_LENGTH && Under(x, prefix, entries) && KeysUnique(entries)
    requires EmitChildren(x, prefix, entries, 0).Some? && b in EmitChildren(x, prefix, entries, 0).value
    requires e in b.entries && |prefix| < k < |b.prefix|
    ensures IsTooLarge(x, entries, e, k)
    decreases DIGEST_LENGTH - |prefix|, 16
  {
    var m := NibbleOf(x, prefix, entries, 0, b);
    GroupIsShallow(x, prefix, entries, HEX[m], b, e, k);
  }

  lemma {:induction false} GroupIsShallow(
    x: Index, prefix: string, entries: seq<Entry>, c: char, b: Bucket, e: Entry, k: nat)
    requires Hashes(x) && |prefix| < DIGEST_LENGTH && Under(x, prefix, entries) && KeysUnique(entries)
    requires var r := Emit(x, prefix + [c], Group(x, entries, |prefix|, c)); r.Some? && b in r.value
    requires e in b.entries && |prefix| < k < |b.prefix|
    ensures IsTooLarge(x, entries, e, k)
    decreases DIGEST_LENGTH - |prefix|, 0
  {
    var group := Group(x, entries, |prefix|, c);
    GroupUnder(x, prefix, entries, c);
    GroupKeysUnique(x, entries, |prefix|, c);
    EmitIsShallow(x, prefix + [c], group, b, e, k);
    EmitHolds(x, prefix + [c], group, b);
    TooLargeInGroup(x, |prefix|, entries, c, e, k);
  }

  lemma {:induction false} TooLargeInGroup(x: Index, depth: nat, entries: seq<Entry>, c: char, e: Entry, k: nat)
    requires Hashes(x) && depth < k <= DIGEST_LENGTH && e in Group(x, entries, depth, c)
    ensures IsTooLarge(x, Group(x, entries, depth, c), e, k) <==> IsTooLarge(x, entries, e, k)
  {
    GroupMembers(x, entries, depth, c);
    assert HexDigest(x.hash(e.key));
    SharingGroup(x, depth, entries, c, e, k);
  }

  /** A bucket is cut out of a larger group only where the group does not fit: whatever shorter
      start, of one nibble or more, its entries share, the entries that share it are over the
      limit together, even as the preflight estimates them. */
  lemma {:induction false} CutsAreNeeded(x: Index, entries: seq<Entry>, b: Bucket, e: Entry, k: nat)
    requires Hashes(x) && KeysUnique(entries)
    requires Build(x, entries).Some? && b in Build(x, entries).value && e in b.entries
    requires 1 <= k < |b.prefix|
    ensures Estimated(x, Sharing(x, entries, e, k)) > x.limit
    ensures Encoded(x, Sharing(x, entries, e, k)) > x.limit
  {
    assert Under(x, "", entries);
    EmitChildrenAreShallow(x, "", entries, b, e, k);
    EstimateIsTwoShort(x, Sharing(x, entries, e, k));
  }

  /** The preflight is not exact: it leaves out the two brackets of the entry list. */
  lemma EstimateIsTwoShort(x: Index, entries: seq<Entry>)
    ensures Estimated(x, entries) + 2 == Encoded(x, entries)
  {
  }

  /** So a bucket of two entries that would fit one by one is refused, not split, when its
      JSON is one byte over the limit. */
  lemma {:induction false} SplittableBucketRefused(x: Index, e: Entry, f: Entry)
    requires Hashes(x) && e != f && x.hash(e.key)[..1] == x.hash(f.key)[..1]
    requires x.hash(e.key)[1] != x.hash(f.key)[1]
    requires Encoded(x, [e, f]) == x.limit + 1
    ensures Build(x, [e, f]).None?
    ensures Emit(x, x.hash(e.key)[..2], [e]).Some? && Emit(x, x.hash(f.key)[..2], [f]).Some?
  {
    var entries := [e, f];
    assert HexDigest(x.hash(e.key)) && HexDigest(x.hash(f.key));
    assert Sharing(x, [f], e, 1) == [f];
    assert Sharing(x, entries, e, 1) == [e] + [f];
    JoinedTotal(x, entries);
    assert e in entries;
    assert RefusedAt(x, entries, e, 1);
    BuildFailsIff(x, entries);
    assert entries[1..] == [f];
    OneEntryFits(x, e, f);
  }

  lemma {:induction false} OneEntryFits(x: Index, e: Entry, f: Entry)
    requires Hashes(x) && Encoded(x, [e, f]) == x.limit + 1
    ensures Emit(x, x.hash(e.key)[..2], [e]).Some? && Emit(x, x.hash(f.key)[..2], [f]).Some?
  {
    assert HexDigest(x.hash(e.key)) && HexDigest(x.hash(f.key));
    assert Sort(KeyLe, [e]) == [e] && Sort(KeyLe, [f]) == [f];
    JoinedTotal(x, [e, f]);
    JoinedTotal(x, [e]);
    JoinedTotal(x, [f]);
    assert [e, f][1..] == [f];
  }
}
