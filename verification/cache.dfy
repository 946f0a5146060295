/** The lookup cache against its history. */
module Cache {
  import opened Bytes
  import opened Grouping

  type Name = seq<char>

  const LOWER_OFFSET := 'a' as int - 'A' as int

  function LowerChar(c: char): char {
    if 'A' <= c <= 'Z' then (c as int + LOWER_OFFSET) as char else c
  }

  function Lower(s: Name): (r: Name)
    ensures |r| == |s|
  {
    seq(|s|, i requires 0 <= i < |s| => LowerChar(s[i]))
  }

  function TrimDots(s: Name): Name {
    if s != [] && s[|s| - 1] == '.' then TrimDots(s[..|s| - 1]) else s
  }

  /** The form under which names are cached. */
  function NormalName(s: Name): Name {
    Lower(TrimDots(s))
  }

  predicate EqIgnoreCase(a: Name, b: Name) {
    Lower(a) == Lower(b)
  }

  datatype Key = Key(name: Name, lookup: Lookup)

  function NewKey(name: Name, lookup: Lookup): Key {
    Key(NormalName(name), lookup)
  }

  datatype CachedAnswer<+A> = CachedAnswer(candidates: A, expiresAt: nat)

  lemma LowerIdempotent(s: Name)
    ensures Lower(Lower(s)) == Lower(s)
  {
  }

  /** The same character, or the same letter in the other case. */
  predicate SameLetter(a: char, b: char) {
    || a == b
    || ('A' <= a <= 'Z' && b as int == a as int + 32)
    || ('A' <= b <= 'Z' && a as int == b as int + 32)
  }

  lemma LowerLetter(a: char, b: char)
    ensures LowerChar(a) == LowerChar(b) <==> SameLetter(a, b)
    ensures !('A' <= LowerChar(a) <= 'Z')
  {
  }

  /** Names are the same if they differ only in case ... */
  lemma LowerSame(a: Name, b: Name)
    ensures Lower(a) == Lower(b) <==> |a| == |b| && forall i :: 0 <= i < |a| ==> SameLetter(a[i], b[i])
  {
    if |a| == |b| {
      forall i | 0 <= i < |a|
        ensures Lower(a)[i] == Lower(b)[i] <==> SameLetter(a[i], b[i])
      {
        LowerLetter(a[i], b[i]);
      }
    }
  }

  /** ... and in the dots at their end. */
  lemma {:induction false} TrimDotsMeans(s: Name)
    ensures TrimDots(s) <= s
    ensures forall i :: |TrimDots(s)| <= i < |s| ==> s[i] == '.'
    ensures TrimDots(s) != [] ==> TrimDots(s)[|TrimDots(s)| - 1] != '.'
  {
    if s != [] && s[|s| - 1] == '.' {
      TrimDotsMeans(s[..|s| - 1]);
    }
  }

  /** Two lookups share an entry exactly if their names are the same in this sense and they ask for
      the same. */
  lemma KeysShared(a: Name, b: Name, x: Lookup, y: Lookup)
    ensures NewKey(a, x) == NewKey(b, y) <==>
            && x == y && |TrimDots(a)| == |TrimDots(b)|
            && forall i :: 0 <= i < |TrimDots(a)| ==> SameLetter(TrimDots(a)[i], TrimDots(b)[i])
  {
    hide Lower;
    LowerSame(TrimDots(a), TrimDots(b));
  }

  /** A key matches an invalidated name exactly when it is its normal form. */
  lemma MatchIsNormal(name: Name, lookup: Lookup, invalid: Name)
    ensures EqIgnoreCase(NewKey(name, lookup).name, TrimDots(invalid)) <==> NormalName(name) == NormalName(invalid)
  {
    LowerIdempotent(TrimDots(name));
  }

  // ------------------------------------------------------------------------------------------
  // The accesses to the shared table

  type Table<A> = map<Key, CachedAnswer<A>>

  function Answered<A>(table: Table<A>, key: Key, now: nat): Option<A> {
    if key in table && table[key].expiresAt > now then Some(table[key].candidates) else None
  }

  predicate Expired<A>(table: Table<A>, key: Key, now: nat) {
    key in table && table[key].expiresAt <= now
  }

  function AfterInsert<A>(table: Table<A>, key: Key, candidates: A, ttl: nat, now: nat): Table<A> {
    if ttl == 0 then table else table[key := CachedAnswer(candidates, now + ttl)]
  }

  function AfterInvalidate<A>(table: Table<A>, name: Name): Table<A> {
    map k | k in table && !EqIgnoreCase(k.name, TrimDots(name)) :: table[k]
  }

  /** One access, with the time its task last read. A get looks, lets go of the table, and only
      then purges what it found expired; other tasks may run in between. An insert reads the
      clock before it takes the table, so the times need not rise from access to access. */
  datatype Op<+A> =
    | Look(key: Key, at: nat)
    | Purge(key: Key, at: nat)
    | Insert(key: Key, candidates: A, ttl: nat, at: nat)
    | Invalidate(name: Name, at: nat)
    | Clear(at: nat)

  /** `removers` are the keys of the gets that found an expired entry and have yet to purge it. */
  datatype State<A> = State(table: Table<A>, removers: multiset<Key>)

  function Apply<A>(s: State<A>, op: Op<A>): State<A> {
    match op
    case Look(key, at) => if Expired(s.table, key, at) then s.(removers := s.removers + multiset{key}) else s
    case Purge(key, _) =>
      if key in s.removers then State(s.table - {key}, s.removers - multiset{key}) else s
    case Insert(key, candidates, ttl, at) => s.(table := AfterInsert(s.table, key, candidates, ttl, at))
    case Invalidate(name, _) => s.(table := AfterInvalidate(s.table, name))
    case Clear(_) => s.(table := map[])
  }

  function Run<A>(ops: seq<Op<A>>): State<A> {
    if ops == [] then State(map[], multiset{}) else Apply(Run(ops[..|ops| - 1]), ops[|ops| - 1])
  }

  // ------------------------------------------------------------------------------------------
  // The cache

  class LookupCache<A> {
    var positive: map<Key, CachedAnswer<A>>

    constructor ()
      ensures positive == map[]
    {
      positive := map[];
    }

    /** Undisturbed, a get is a look and its purge. */
    method Get(key: Key, now: nat) returns (r: Option<A>)
      modifies this
      ensures r == Answered(old(positive), key, now)
      ensures State(positive, multiset{}) ==
              Apply(Apply(State(old(positive), multiset{}), Look(key, now)), Purge(key, now))
    {
      if key !in positive {
        return None;
      }
      var answer := positive[key];
      if answer.expiresAt > now {
        return Some(answer.candidates);
      }
      positive := positive - {key};
      return None;
    }

    method Insert(key: Key, candidates: A, ttl: nat, now: nat)
      modifies this
      ensures positive == AfterInsert(old(positive), key, candidates, ttl, now)
    {
      if ttl != 0 {
        positive := positive[key := CachedAnswer(candidates, now + ttl)];
      }
    }

    method InvalidateName(name: Name)
      modifies this
      ensures positive == AfterInvalidate(old(positive), name)
    {
      var trimmed := TrimDots(name);
      positive := map k | k in positive && !EqIgnoreCase(k.name, trimmed) :: positive[k];
    }

    method Clear()
      modifies this
      ensures positive == map[]
    {
      positive := map[];
    }
  }

  // ------------------------------------------------------------------------------------------
  // The history specification

  /** Whether an access makes the cache forget entries under this key. */
  predicate Forgets<A>(op: Op<A>, key: Key) {
    op.Clear? || (op.Invalidate? && EqIgnoreCase(key.name, TrimDots(op.name)))
  }

  predicate Stores<A>(op: Op<A>, key: Key) {
    op.Insert? && op.key == key && op.ttl > 0
  }

  /** The latest insert for the key that lives at all and is not followed by a clear or by an
      invalidation of its name. */
  function Latest<A>(ops: seq<Op<A>>, key: Key): (r: Option<Op<A>>)
    ensures r.Some? ==> r.value.Insert?
  {
    if ops == [] then None
    else
      var last := ops[|ops| - 1];
      if Stores(last, key) then Some(last)
      else if Forgets(last, key) then None
      else Latest(ops[..|ops| - 1], key)
  }

  /** ... and only before its expiry. */
  function Expected<A>(ops: seq<Op<A>>, key: Key, now: nat): (r: Option<A>) {
    var op := Latest(ops, key);
    if op.Some? && op.value.at + op.value.ttl > now then Some(op.value.candidates) else None
  }

  /** The position of that insert, with nothing that matters to the key after it. */
  ghost predicate LatestAt<A>(ops: seq<Op<A>>, key: Key, i: int) {
    && 0 <= i < |ops| && Stores(ops[i], key)
    && forall j :: i < j < |ops| ==> !Stores(ops[j], key) && !Forgets(ops[j], key)
  }

  /** A look reads the clock under its guard, so no access before it read a later time. */
  ghost predicate StampedBefore<A>(ops: seq<Op<A>>, now: nat) {
    forall i :: 0 <= i < |ops| ==> ops[i].at <= now
  }

  /** What `Latest` means. */
  lemma {:induction false} LatestMeans<A>(ops: seq<Op<A>>, key: Key)
    ensures Latest(ops, key).Some? ==> exists i :: LatestAt(ops, key, i) && ops[i] == Latest(ops, key).value
    ensures Latest(ops, key).None? ==>
              forall i :: 0 <= i < |ops| && Stores(ops[i], key) ==>
                            exists j :: i < j < |ops| && Forgets(ops[j], key)
  {
    if ops != [] {
      var init, last := ops[..|ops| - 1], ops[|ops| - 1];
      LatestMeans(init, key);
      assert forall i :: 0 <= i < |init| ==> init[i] == ops[i];
      if Stores(last, key) {
        assert LatestAt(ops, key, |ops| - 1);
      } else if Forgets(last, key) {
        forall i | 0 <= i < |ops| && Stores(ops[i], key)
          ensures exists j :: i < j < |ops| && Forgets(ops[j], key)
        {
          assert Forgets(ops[|ops| - 1], key);
        }
      } else if Latest(init, key).Some? {
        var i :| LatestAt(init, key, i) && init[i] == Latest(init, key).value;
        assert LatestAt(ops, key, i);
      } else {
        forall i | 0 <= i < |ops| && Stores(ops[i], key)
          ensures exists j :: i < j < |ops| && Forgets(ops[j], key)
        {
          assert init[i] == ops[i];
          var j :| i < j < |init| && Forgets(init[j], key);
          assert ops[j] == init[j];
        }
      }
    }
  }

  // ------------------------------------------------------------------------------------------
  // Every run against its history

  /** Whether a get has purged the key since its latest insert. */
  predicate Lost<A>(ops: seq<Op<A>>, key: Key) {
    ops != [] &&
    var init, last := ops[..|ops| - 1], ops[|ops| - 1];
    !Stores(last, key) && !Forgets(last, key) &&
    (Lost(init, key) || Purges(Run(init), last, key))
  }

  predicate Purges<A>(s: State<A>, op: Op<A>, key: Key) {
    op.Purge? && op.key == key && key in s.removers
  }

  /** What one access does to the entry of a key. */
  lemma ApplyEntry<A>(s: State<A>, op: Op<A>, key: Key)
    ensures var table := Apply(s, op).table;
            && (Stores(op, key) ==> key in table && table[key] == CachedAnswer(op.candidates, op.at + op.ttl))
            && (Forgets(op, key) || Purges(s, op, key) ==> key !in table)
            && (!Stores(op, key) && !Forgets(op, key) && !Purges(s, op, key) ==>
                  (key in table <==> key in s.table) && (key in table ==> table[key] == s.table[key]))
  {
    hide EqIgnoreCase, TrimDots;
  }

  /** And to the removers of that key. */
  lemma ApplyRemovers<A>(s: State<A>, op: Op<A>, key: Key)
    ensures key in s.removers && !Purges(s, op, key) ==> key in Apply(s, op).removers
    ensures key in Apply(s, op).removers ==>
              key in s.removers || (op.Look? && op.key == key && Expired(s.table, key, op.at))
  {
    hide AfterInsert, AfterInvalidate;
  }

  lemma RunStep<A>(ops: seq<Op<A>>)
    requires ops != []
    ensures Run(ops) == Apply(Run(ops[..|ops| - 1]), ops[|ops| - 1])
  {
  }

  lemma LostStep<A>(ops: seq<Op<A>>, key: Key)
    requires ops != []
    ensures var init, last := ops[..|ops| - 1], ops[|ops| - 1];
            Lost(ops, key) <==>
            !Stores(last, key) && !Forgets(last, key) && (Lost(init, key) || Purges(Run(init), last, key))
  {
    hide Run;
  }

  /** On any clock, the table holds the latest insert exactly until a get purges it. */
  lemma {:induction false} RunExact<A>(ops: seq<Op<A>>, key: Key)
    ensures var latest, table := Latest(ops, key), Run(ops).table;
            && (key in table <==> latest.Some? && !Lost(ops, key))
            && (key in table ==>
                  table[key] == CachedAnswer(latest.value.candidates, latest.value.at + latest.value.ttl))
  {
    hide Apply, Run, Lost, Stores, Forgets, Purges;
    if ops == [] {
      assert Run(ops).table == map[] by { RunNothing<A>(); }
    } else {
      var init, last := ops[..|ops| - 1], ops[|ops| - 1];
      RunExact(init, key);
      RunStep(ops);
      LostStep(ops, key);
      ApplyEntry(Run(init), last, key);
    }
  }

  lemma RunNothing<A>()
    ensures Run<A>([]) == State(map[], multiset{})
  {
  }

  /** So a look answers what the history says unless a purge took an answer that still lives. */
  lemma LookExact<A>(ops: seq<Op<A>>, key: Key, now: nat)
    ensures Answered(Run(ops).table, key, now) == Expected(ops, key, now) <==>
            !(Lost(ops, key) && Expected(ops, key, now).Some?)
  {
    RunExact(ops, key);
  }

  /** A get that found an older answer expired purges the key after its latest insert. */
  ghost predicate Races<A>(ops: seq<Op<A>>, key: Key) {
    exists i, p :: LatestAt(ops, key, i) && RaceAt(ops, key, i, p)
  }

  ghost predicate RaceAt<A>(ops: seq<Op<A>>, key: Key, i: int, p: int) {
    0 <= i < p < |ops| && ops[p].Purge? && ops[p].key == key && key in Run(ops[..i]).removers
  }

  lemma {:induction false} RaceLoses<A>(ops: seq<Op<A>>, key: Key, i: nat, n: nat)
    requires LatestAt(ops, key, i) && i < n <= |ops| && key in Run(ops[..i]).removers
    ensures Lost(ops[..n], key) || key in Run(ops[..n]).removers
    ensures (exists p :: i < p < n && ops[p].Purge? && ops[p].key == key) ==> Lost(ops[..n], key)
    decreases n
  {
    hide Apply, Run, Lost, Forgets;
    assert ops[..n][..n - 1] == ops[..n - 1] && ops[..n][n - 1] == ops[n - 1];
    RunStep(ops[..n]);
    LostStep(ops[..n], key);
    ApplyRemovers(Run(ops[..n - 1]), ops[n - 1], key);
    if n > i + 1 {
      RaceLoses(ops, key, i, n - 1);
    }
  }

  /** While the latest insert lives, no look adds a remover of its key. */
  lemma {:induction false} LostByRace<A>(ops: seq<Op<A>>, key: Key, i: nat, n: nat, now: nat)
    requires LatestAt(ops, key, i) && i < n <= |ops| && StampedBefore(ops, now) && ops[i].at + ops[i].ttl > now
    ensures key in Run(ops[..n]).removers ==> key in Run(ops[..i]).removers
    ensures Lost(ops[..n], key) ==> exists p :: p < n && RaceAt(ops, key, i, p)
    ensures Latest(ops[..n], key) == Some(ops[i])
    decreases n
  {
    hide Apply, Run, Lost, Forgets;
    assert ops[..n][..n - 1] == ops[..n - 1] && ops[..n][n - 1] == ops[n - 1];
    RunStep(ops[..n]);
    LostStep(ops[..n], key);
    ApplyRemovers(Run(ops[..n - 1]), ops[n - 1], key);
    if n > i + 1 {
      LostByRace(ops, key, i, n - 1, now);
      RunExact(ops[..n - 1], key);
      if Lost(ops[..n], key) && !Lost(ops[..n - 1], key) {
        assert RaceAt(ops, key, i, n - 1);
      }
    }
  }

  /** Main result on the cache, for every interleaving whose accesses read the clock before: a
      look misses an answer that the history still has exactly if a get that began before the
      insert of that answer purged it, and it never answers anything else. */
  lemma GetMissesIffRace<A>(ops: seq<Op<A>>, key: Key, now: nat)
    requires StampedBefore(ops, now)
    ensures Answered(Run(ops).table, key, now) ==
            if Races(ops, key) then None else Expected(ops, key, now)
  {
    RunExact(ops, key);
    LatestMeans(ops, key);
    assert ops[..|ops|] == ops;
    if Races(ops, key) {
      var i, p :| LatestAt(ops, key, i) && RaceAt(ops, key, i, p);
      RaceLoses(ops, key, i, |ops|);
    } else if Expected(ops, key, now).Some? {
      var i :| LatestAt(ops, key, i) && ops[i] == Latest(ops, key).value;
      LostByRace(ops, key, i, |ops|, now);
    }
  }

  /** Each look is followed at once by its purge, which does nothing if the look found nothing
      expired. */
  ghost predicate Serial<A>(ops: seq<Op<A>>) {
    forall i :: 0 <= i < |ops| && ops[i].Look? ==> i + 1 < |ops| && ops[i + 1] == Purge(ops[i].key, ops[i].at)
  }

  lemma {:induction false} SerialSettles<A>(ops: seq<Op<A>>, n: nat)
    requires Serial(ops) && n <= |ops|
    ensures n == 0 || !ops[n - 1].Look? ==> Run(ops[..n]).removers == multiset{}
    ensures n > 0 && ops[n - 1].Look? ==>
              Run(ops[..n]).removers == multiset{} || Run(ops[..n]).removers == multiset{ops[n - 1].key}
  {
    hide Run, Apply;
    if n == 0 {
      RunNothing<A>();
      assert ops[..0] == [];
    } else {
      SerialSettles(ops, n - 1);
      assert ops[..n][..n - 1] == ops[..n - 1];
      RunStep(ops[..n]);
      SettledStep(Run(ops[..n - 1]), ops[n - 1]);
    }
  }

  lemma SettledStep<A>(s: State<A>, op: Op<A>)
    ensures op.Purge? && (s.removers == multiset{} || s.removers == multiset{op.key}) ==>
              Apply(s, op).removers == multiset{}
    ensures s.removers == multiset{} ==>
              Apply(s, op).removers == multiset{} || (op.Look? && Apply(s, op).removers == multiset{op.key})
  {
    hide AfterInsert, AfterInvalidate, Expired;
  }

  /** If gets do not overlap with other accesses, they answer what the history says. */
  lemma GetAgreesWithHistory<A>(ops: seq<Op<A>>, key: Key, now: nat)
    requires StampedBefore(ops, now) && Serial(ops)
    ensures Answered(Run(ops).table, key, now) == Expected(ops, key, now)
  {
    GetMissesIffRace(ops, key, now);
    if i, p :| LatestAt(ops, key, i) && RaceAt(ops, key, i, p) {
      SerialSettles(ops, i);
    }
  }

  lemma StaleRemover(key: Key)
    ensures var ops: seq<Op<int>> := [Insert(key, 1, 5, 0), Look(key, 9)];
            key in Run(ops).removers
  {
    hide Run;
    var ops: seq<Op<int>> := [Insert(key, 1, 5, 0), Look(key, 9)];
    assert ops[..1] == [ops[0]] && ops[..1][..0] == [];
    RunNothing<int>();
    RunStep(ops[..1]);
    RunStep(ops);
  }

  /** If they do, one can lose an answer that was stored a moment ago. */
  lemma RaceExample(key: Key)
    ensures var ops: seq<Op<int>> := [Insert(key, 1, 5, 0), Look(key, 9), Insert(key, 2, 5, 9), Purge(key, 9)];
            StampedBefore(ops, 10) && Answered(Run(ops).table, key, 10) == None && Expected(ops, key, 10) == Some(2)
  {
    hide Run, Latest, Answered, Forgets;
    var ops: seq<Op<int>> := [Insert(key, 1, 5, 0), Look(key, 9), Insert(key, 2, 5, 9), Purge(key, 9)];
    StaleRemover(key);
    assert ops[..2] == [Insert(key, 1, 5, 0), Look(key, 9)];
    assert LatestAt(ops, key, 2) && RaceAt(ops, key, 2, 3) by { PurgeForgetsNothing<int>(ops[3], key); }
    GetMissesIffRace(ops, key, 10);
    LatestMeans(ops, key);
    assert forall i :: LatestAt(ops, key, i) ==> i == 2;
  }

  lemma PurgeForgetsNothing<A>(op: Op<A>, key: Key)
    requires op.Purge?
    ensures !Forgets(op, key)
  {
  }
}
