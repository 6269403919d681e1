/** The bounded table of (register value, placed operations) pairs already met, under whatever
    hash. */
module Memoisation {
  import opened Register

  datatype Entry = Entry(state: Value, bits: seq<bv64>)

  /** The buckets hold exactly the entries of `contents`, each in its own. */
  ghost predicate Holds(m: map<int, seq<Entry>>, hash: (Value, seq<bv64>) -> int, contents: set<Entry>) {
    && (forall h, e :: h in m && e in m[h] ==> e in contents)
    && (forall e :: e in contents ==> hash(e.state, e.bits) in m && e in m[hash(e.state, e.bits)])
  }

  function Bucket(m: map<int, seq<Entry>>, h: int): seq<Entry> {
    if h in m then m[h] else []
  }

  lemma InBucket(m: map<int, seq<Entry>>, hash: (Value, seq<bv64>) -> int, contents: set<Entry>, e: Entry)
    requires Holds(m, hash, contents)
    ensures e in Bucket(m, hash(e.state, e.bits)) <==> e in contents
  {
  }

  lemma HoldsMore(m: map<int, seq<Entry>>, hash: (Value, seq<bv64>) -> int, contents: set<Entry>, e: Entry)
    requires Holds(m, hash, contents)
    ensures var h := hash(e.state, e.bits); Holds(m[h := Bucket(m, h) + [e]], hash, contents + {e})
  {
  }

  /** The hash is arbitrary: buckets compare their entries in full. */
  class Memo {
    var m: map<int, seq<Entry>>
    var entries: nat
    const maxEntries: nat
    const hash: (Value, seq<bv64>) -> int
    ghost var contents: set<Entry>

    ghost predicate Valid()
      reads this
    {
      entries == |contents| && entries <= maxEntries && Holds(m, hash, contents)
    }

    constructor (maxEntries: nat, hash: (Value, seq<bv64>) -> int)
      ensures Valid() && contents == {} && entries == 0
      ensures this.maxEntries == maxEntries && this.hash == hash
    {
      m, entries, contents := map[], 0, {};
      this.maxEntries, this.hash := maxEntries, hash;
    }

    /** Whether the pair should be explored. A full table records nothing more and
        answers that it has not met the pair. */
    method Insert(state: Value, bits: array<bv64>) returns (isNew: bool)
      requires Valid()
      modifies this
      ensures Valid()
      ensures isNew <==> Entry(state, bits[..]) !in old(contents)
      ensures contents == old(contents) + if isNew && old(entries) < maxEntries then {Entry(state, bits[..])} else {}
      ensures entries == old(entries) + if isNew && old(entries) < maxEntries then 1 else 0
    {
      hide Holds;
      var h := hash(state, bits[..]);
      var wanted := Entry(state, bits[..]);
      var bucket := if h in m then m[h] else [];
      assert bucket == Bucket(m, h);
      InBucket(m, hash, contents, wanted);
      for i := 0 to |bucket|
        invariant wanted !in bucket[..i]
      {
        if bucket[i].state == state && bucket[i].bits == bits[..] {
          assert bucket[i] == wanted;
          return false;
        }
      }
      assert bucket == bucket[..|bucket|];
      if entries >= maxEntries {
        return true;
      }
      HoldsMore(m, hash, contents, wanted);
      m := m[h := bucket + [wanted]];
      contents := contents + {wanted};
      entries := entries + 1;
      return true;
    }
  }
}
