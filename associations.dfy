/**
 * Association resolution in `build_extra_attributes`: the category
 * references stored on a post are split by their `domain` into tags and blog
 * categories, and each reference is resolved against the pool of standalone
 * objects of its class. The first pooled object whose key field equals the
 * reference's key wins; its `ar_record` is reused when present, otherwise the
 * object is imported, which creates a record and attaches it to the object.
 */
module Associations {
  import opened Wrappers
  import opened Find

  /** A category reference as stored with a post: its `domain` and its other fields. */
  datatype CategoryRef = CategoryRef(domain: string, fields: map<string, string>)

  const TagDomain := "post_tag"
  const CategoryDomain := "category"

  /** `refs.select { |c| c[:domain] == domain }` */
  function Select(refs: seq<CategoryRef>, domain: string): (r: seq<CategoryRef>)
    ensures |r| <= |refs|
  {
    if |refs| == 0 then []
    else Select(refs[..|refs| - 1], domain) + (if refs[|refs| - 1].domain == domain then [refs[|refs| - 1]] else [])
  }

  /** The selection holds exactly the references of the domain. */
  lemma {:induction false} SelectMembers(refs: seq<CategoryRef>, domain: string)
    ensures forall x :: x in Select(refs, domain) <==> x in refs && x.domain == domain
  {
    if |refs| > 0 {
      var init := refs[..|refs| - 1];
      SelectMembers(init, domain);
      assert refs == init + [refs[|refs| - 1]];
    }
  }

  /** Selection keeps the references' order: it distributes over concatenation. */
  lemma {:induction false} SelectAppend(a: seq<CategoryRef>, b: seq<CategoryRef>, domain: string)
    ensures Select(a + b, domain) == Select(a, domain) + Select(b, domain)
    decreases |b|
  {
    if |b| == 0 {
      assert a + b == a;
    } else {
      var b0 := b[..|b| - 1];
      SelectAppend(a, b0, domain);
      assert (a + b)[..|a + b| - 1] == a + b0;
    }
  }

  /**
   * The two selections never share a reference, and together with the
   * references of any other domain, which are ignored, they account for all.
   */
  lemma {:induction false} SelectPartition(refs: seq<CategoryRef>)
    ensures |Select(refs, TagDomain)| + |Select(refs, CategoryDomain)| <= |refs|
    ensures forall x :: x in Select(refs, TagDomain) ==> x !in Select(refs, CategoryDomain)
  {
    SelectMembers(refs, TagDomain);
    SelectMembers(refs, CategoryDomain);
    if |refs| > 0 {
      SelectPartition(refs[..|refs| - 1]);
    }
  }

  /** The value a reference holds in the pool's key field, `nil` when it has none. */
  function RefKey(ref: CategoryRef, field: string): (k: Option<string>)
    ensures k.Some? <==> field in ref.fields
  {
    if field in ref.fields then Some(ref.fields[field]) else None
  }

  function RefKeys(refs: seq<CategoryRef>, field: string): (ks: seq<Option<string>>)
    ensures |ks| == |refs|
    ensures forall i :: 0 <= i < |refs| ==> ks[i] == RefKey(refs[i], field)
  {
    if |refs| == 0 then [] else RefKeys(refs[..|refs| - 1], field) + [RefKey(refs[|refs| - 1], field)]
  }

  /** A persisted record: its class and its id. */
  datatype Record = Record(className: string, id: nat)

  /** A pooled standalone object: its key field (`nil` possible) and its `ar_record`. */
  datatype Entry = Entry(key: Option<string>, record: Option<Record>)

  /** The pool as a value: its objects in `find` order, and the next id `import` hands out. */
  datatype Pooled = Pooled(entries: seq<Entry>, nextId: nat)

  /** The key an entry is found by; `FirstWith(entries, EntryKey, key)` is the first entry with `key`. */
  function EntryKey(e: Entry): Option<string> { e.key }

  /** The record the first entry with key `key` holds, if there is such an entry and it holds one. */
  function HeldFor(p: Pooled, key: Option<string>): Option<Record> {
    var i := FirstWith(p.entries, EntryKey, key);
    if i < |p.entries| then p.entries[i].record else None
  }

  /** Neither lookup nor import changes which object has which key. */
  ghost predicate SameKeys(a: seq<Entry>, b: seq<Entry>) {
    |a| == |b| && forall i :: 0 <= i < |a| ==> a[i].key == b[i].key
  }

  /**
   * Every record in the pool is of the pool's class, was handed out before
   * `nextId`, and belongs to one object only.
   */
  ghost predicate Valid(p: Pooled, className: string) {
    (forall i :: 0 <= i < |p.entries| && p.entries[i].record.Some? ==>
      p.entries[i].record.value.className == className && p.entries[i].record.value.id < p.nextId) &&
    (forall i, j :: 0 <= i < j < |p.entries| && p.entries[i].record.Some? && p.entries[j].record.Some? ==>
      p.entries[i].record != p.entries[j].record)
  }

  /** What one resolution leaves: the pool, and the record to push (`None`: no object matched). */
  datatype Resolution = Resolution(pool: Pooled, record: Option<Record>)

  /**
   * Lines 98-107 for one reference key: find the first matching object; reuse
   * its record, or import it. No match leaves `record` empty: the source then
   * calls `ar_record` on `nil` and raises.
   */
  function Lookup(p: Pooled, className: string, key: Option<string>): (r: Resolution)
    ensures SameKeys(p.entries, r.pool.entries)
    ensures r.record.Some? <==> FirstWith(p.entries, EntryKey, key) < |p.entries|
    ensures r.record.Some? ==> HeldFor(r.pool, key) == r.record
    ensures HeldFor(p, key).Some? ==> r == Resolution(p, HeldFor(p, key))
    ensures r.pool.nextId <= p.nextId + 1
  {
    var i := FirstWith(p.entries, EntryKey, key);
    if i == |p.entries| then Resolution(p, None)
    else match p.entries[i].record
      case Some(rec) => Resolution(p, Some(rec))
      case None =>
        var rec := Record(className, p.nextId);
        var q := Pooled(p.entries[i := p.entries[i].(record := Some(rec))], p.nextId + 1);
        assert FirstWith(q.entries, EntryKey, key) == i by {
          FirstMatchSameKeys(p.entries, q.entries, key);
        }
        Resolution(q, Some(rec))
  }

  lemma {:induction false} FirstMatchSameKeys(a: seq<Entry>, b: seq<Entry>, key: Option<string>)
    requires SameKeys(a, b)
    ensures FirstWith(a, EntryKey, key) == FirstWith(b, EntryKey, key)
  {
    if |a| > 0 && a[0].key != key {
      FirstMatchSameKeys(a[1..], b[1..], key);
    }
  }

  /** Importing hands out a fresh id: the pool stays valid. */
  lemma LookupKeepsValid(p: Pooled, className: string, key: Option<string>)
    requires Valid(p, className)
    ensures Valid(Lookup(p, className, key).pool, className)
  {
    var i := FirstWith(p.entries, EntryKey, key);
    if i < |p.entries| && p.entries[i].record.None? {
      var q := Lookup(p, className, key).pool;
      assert q.entries == p.entries[i := p.entries[i].(record := Some(Record(className, p.nextId)))];
    }
  }

  /**
   * An import changes only the matched object, and only from no record to
   * one: every record already held for any key is still held.
   */
  lemma LookupKeepsHeld(p: Pooled, className: string, key: Option<string>, other: Option<string>)
    requires HeldFor(p, other).Some?
    ensures HeldFor(Lookup(p, className, key).pool, other) == HeldFor(p, other)
  {
    var q := Lookup(p, className, key).pool;
    FirstMatchSameKeys(p.entries, q.entries, other);
  }

  /**
   * An object without a record is imported: the record is new to the pool,
   * takes the next id, and the matched object now holds it.
   */
  lemma ImportCreatesFresh(p: Pooled, className: string, key: Option<string>)
    requires Valid(p, className)
    requires FirstWith(p.entries, EntryKey, key) < |p.entries| && HeldFor(p, key).None?
    ensures var r := Lookup(p, className, key);
      r.record == Some(Record(className, p.nextId)) && r.pool.nextId == p.nextId + 1 &&
      forall i :: 0 <= i < |p.entries| ==> p.entries[i].record != r.record
  {
  }

  /** The outcome of resolving references in order: the pool, what was pushed, and whether all resolved. */
  datatype Run = Run(pool: Pooled, pushed: seq<Record>, ok: bool)

  /**
   * The loop of lines 90-111 over one association: each key resolved on the
   * pool the previous left and its record pushed; the first key that matches
   * no object stops the loop (the source raises there), keeping what was
   * pushed before it.
   */
  function ResolveAll(p: Pooled, className: string, keys: seq<Option<string>>): (r: Run)
    ensures |r.pushed| <= |keys|
    ensures r.ok ==> |r.pushed| == |keys|
  {
    if |keys| == 0 then Run(p, [], true)
    else Next(ResolveAll(p, className, keys[..|keys| - 1]), className, keys[|keys| - 1])
  }

  /** One more reference: resolved on the pool the run left, unless the run has stopped. */
  function Next(run: Run, className: string, key: Option<string>): (r: Run)
    ensures |r.pushed| <= |run.pushed| + 1
    ensures r.ok ==> run.ok && |r.pushed| == |run.pushed| + 1
    ensures !r.ok ==> |r.pushed| == |run.pushed|
  {
    if !run.ok then run
    else
      var step := Lookup(run.pool, className, key);
      match step.record
      case None => Run(run.pool, run.pushed, false)
      case Some(rec) => Run(step.pool, run.pushed + [rec], true)
  }

  lemma NextResolves(run: Run, className: string, key: Option<string>, resolution: Resolution)
    requires run.ok && resolution == Lookup(run.pool, className, key)
    ensures resolution.record.None? ==> Next(run, className, key) == Run(run.pool, run.pushed, false)
    ensures resolution.record.Some? ==>
      Next(run, className, key) == Run(resolution.pool, run.pushed + [resolution.record.value], true)
  {
  }

  lemma ResolveAllPrefix(p: Pooled, className: string, keys: seq<Option<string>>, i: nat)
    requires i < |keys|
    ensures ResolveAll(p, className, keys[..i + 1]) == Next(ResolveAll(p, className, keys[..i]), className, keys[i])
  {
    assert keys[..i + 1][..i] == keys[..i];
  }

  /** A run that has stopped stays stopped: later references are not looked at. */
  lemma {:induction false} ResolveAllStaysFailed(p: Pooled, className: string, keys: seq<Option<string>>, n: nat)
    requires n <= |keys| && !ResolveAll(p, className, keys[..n]).ok
    ensures ResolveAll(p, className, keys) == ResolveAll(p, className, keys[..n])
    decreases |keys| - n
  {
    if n < |keys| {
      assert keys[..n + 1][..n] == keys[..n];
      ResolveAllStaysFailed(p, className, keys, n + 1);
    } else {
      assert keys[..n] == keys;
    }
  }

  /** Each pushed record is the one the pool holds for its reference's key. */
  ghost predicate Consistent(p: Pooled, keys: seq<Option<string>>, pushed: seq<Record>) {
    |pushed| <= |keys| && forall i :: 0 <= i < |pushed| ==> HeldFor(p, keys[i]) == Some(pushed[i])
  }

  lemma ConsistentStep(p: Pooled, className: string, keys: seq<Option<string>>, pushed: seq<Record>, key: Option<string>)
    requires Consistent(p, keys, pushed) && |pushed| == |keys|
    requires Lookup(p, className, key).record.Some?
    ensures Consistent(Lookup(p, className, key).pool, keys + [key], pushed + [Lookup(p, className, key).record.value])
  {
    var step := Lookup(p, className, key);
    forall i | 0 <= i < |pushed| ensures HeldFor(step.pool, (keys + [key])[i]) == Some((pushed + [step.record.value])[i]) {
      LookupKeepsHeld(p, className, key, keys[i]);
    }
  }

  /**
   * What a run of `keys` from `p` that ended in `r` guarantees: the objects
   * keep their keys, each pushed record is held for its reference's key, and
   * a stop happens only at a reference that matches no object.
   */
  ghost predicate RunFacts(p: Pooled, keys: seq<Option<string>>, r: Run) {
    SameKeys(p.entries, r.pool.entries) &&
    Consistent(r.pool, keys, r.pushed) &&
    (r.ok ==> |r.pushed| == |keys|) &&
    (!r.ok ==> |r.pushed| < |keys| && FirstWith(p.entries, EntryKey, keys[|r.pushed|]) == |p.entries|)
  }

  lemma RunFactsStep(p: Pooled, className: string, keys: seq<Option<string>>, run: Run, key: Option<string>)
    requires RunFacts(p, keys, run)
    ensures RunFacts(p, keys + [key], Next(run, className, key))
  {
    if run.ok {
      var step := Lookup(run.pool, className, key);
      NextResolves(run, className, key, step);
      FirstMatchSameKeys(p.entries, run.pool.entries, key);
      SameKeysTrans(p.entries, run.pool.entries, step.pool.entries);
      if step.record.Some? {
        ConsistentStep(run.pool, className, keys, run.pushed, key);
      } else {
        assert (keys + [key])[|run.pushed|] == key;
      }
    } else {
      assert (keys + [key])[|run.pushed|] == keys[|run.pushed|];
      assert forall i :: 0 <= i < |run.pushed| ==> (keys + [key])[i] == keys[i];
    }
  }

  /** A run keeps the keys of the pool's objects, and the facts above hold of every run. */
  lemma {:induction false} ResolveAllConsistent(p: Pooled, className: string, keys: seq<Option<string>>)
    ensures RunFacts(p, keys, ResolveAll(p, className, keys))
  {
    if |keys| > 0 {
      var n := |keys| - 1;
      ResolveAllConsistent(p, className, keys[..n]);
      RunFactsStep(p, className, keys[..n], ResolveAll(p, className, keys[..n]), keys[n]);
      assert keys[..n] + [keys[n]] == keys;
    }
  }

  lemma SameKeysTrans(a: seq<Entry>, b: seq<Entry>, c: seq<Entry>)
    requires SameKeys(a, b) && SameKeys(b, c)
    ensures SameKeys(a, c)
  {
  }

  /** Two references with the same key are resolved to the same record, imported at most once. */
  lemma SameKeySameRecord(p: Pooled, className: string, keys: seq<Option<string>>, i: nat, j: nat)
    requires i < |ResolveAll(p, className, keys).pushed| && j < |ResolveAll(p, className, keys).pushed|
    requires keys[i] == keys[j]
    ensures ResolveAll(p, className, keys).pushed[i] == ResolveAll(p, className, keys).pushed[j]
  {
    ResolveAllConsistent(p, className, keys);
  }

  /** A run keeps the pool valid. */
  lemma {:induction false} ResolveAllKeepsValid(p: Pooled, className: string, keys: seq<Option<string>>)
    requires Valid(p, className)
    ensures Valid(ResolveAll(p, className, keys).pool, className)
  {
    if |keys| > 0 {
      ResolveAllKeepsValid(p, className, keys[..|keys| - 1]);
      LookupKeepsValid(ResolveAll(p, className, keys[..|keys| - 1]).pool, className, keys[|keys| - 1]);
    }
  }

  /** Each resolution imports at most once: a run hands out at most one id per reference. */
  lemma {:induction false} ResolveAllImportsAtMost(p: Pooled, className: string, keys: seq<Option<string>>)
    ensures p.nextId <= ResolveAll(p, className, keys).pool.nextId <= p.nextId + |keys|
  {
    if |keys| > 0 {
      ResolveAllImportsAtMost(p, className, keys[..|keys| - 1]);
    }
  }

  /**
   * Resolving again on the pool a run left, with every key resolved, imports
   * nothing and pushes the same records.
   */
  lemma {:induction false} ResolveAgain(q: Pooled, className: string, keys: seq<Option<string>>, pushed: seq<Record>)
    requires Consistent(q, keys, pushed) && |pushed| == |keys|
    ensures ResolveAll(q, className, keys) == Run(q, pushed, true)
  {
    if |keys| > 0 {
      var n := |keys| - 1;
      assert Consistent(q, keys[..n], pushed[..n]);
      ResolveAgain(q, className, keys[..n], pushed[..n]);
      var step := Lookup(q, className, keys[n]);
      assert step == Resolution(q, Some(pushed[n]));
      NextResolves(Run(q, pushed[..n], true), className, keys[n], step);
      assert pushed[..n] + [pushed[n]] == pushed;
    }
  }

  /** The pool of line 98 (`WP::Tag.find` or `WP::Category.find`), updated in place by `import`. */
  class Pool {
    /** The record class `import` creates. */
    const className: string
    /** The stored reference field compared with each object's key (`raw_real_map.first[0]`). */
    const refField: string
    var entries: seq<Entry>
    var nextId: nat

    constructor (className: string, refField: string, entries: seq<Entry>, nextId: nat)
      ensures this.className == className && this.refField == refField
      ensures this.entries == entries && this.nextId == nextId
    {
      this.className := className;
      this.refField := refField;
      this.entries := entries;
      this.nextId := nextId;
    }

    function Snapshot(): Pooled
      reads this
    {
      Pooled(entries, nextId)
    }

    /** Lines 98-107: find the first object with the key, then reuse its record or import it. */
    method Resolve(key: Option<string>) returns (record: Option<Record>)
      modifies this
      ensures Resolution(Snapshot(), record) == Lookup(old(Snapshot()), className, key)
    {
      var i := 0;
      while i < |entries| && EntryKey(entries[i]) != key
        invariant i <= |entries|
        invariant forall j :: 0 <= j < i ==> EntryKey(entries[j]) != key
      {
        i := i + 1;
      }
      FirstWithIsLeast(entries, EntryKey, key, i);
      if i == |entries| {
        record := None;
      } else if entries[i].record.Some? {
        record := entries[i].record;
      } else {
        var rec := Record(className, nextId);
        entries := entries[i := entries[i].(record := Some(rec))];
        nextId := nextId + 1;
        record := Some(rec);
      }
    }
  }
}
