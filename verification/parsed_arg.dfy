/** The result store filled in while arguments are parsed: a list of values
    per argument name, an occurrence counter per name, and the result of the
    selected subcommand, if any. */
module ParsedArg {
  import opened Wrappers

  /** Count of `key` in a counter map, 0 when the key is absent. */
  function CountIn(counts: map<string, nat>, key: string): nat
  {
    if key in counts then counts[key] else 0
  }

  /** The counters `c` with every counter of `d` added into the counter of
      the same key. */
  function AddCounts(c: map<string, nat>, d: map<string, nat>): (r: map<string, nat>)
    ensures r.Keys == c.Keys + d.Keys
    ensures forall k :: CountIn(r, k) == CountIn(c, k) + CountIn(d, k)
  {
    map k | k in c.Keys + d.Keys :: CountIn(c, k) + CountIn(d, k)
  }

  /** The entries of `d` whose key is in `keys`. */
  function Restrict(d: map<string, nat>, keys: set<string>): (r: map<string, nat>)
    ensures r.Keys == d.Keys * keys
    ensures forall k :: k in r ==> r[k] == d[k]
  {
    map k | k in d && k in keys :: d[k]
  }

  /** `counts` is `c` with the counters of `d` for the keys in `done`
      added in. */
  ghost predicate FoldedIn(counts: map<string, nat>, c: map<string, nat>, d: map<string, nat>, done: set<string>)
  {
    && counts.Keys == c.Keys + (d.Keys * done)
    && forall k :: CountIn(counts, k) == CountIn(c, k) + CountIn(Restrict(d, done), k)
  }

  /** Nothing folded in yet. */
  lemma FoldedNothing(c: map<string, nat>, d: map<string, nat>)
    ensures FoldedIn(c, c, d, {})
  {
  }

  /** Adding the counters of `d` one key at a time: folding one more key of
      `d` into the running total widens the set of keys folded in. */
  lemma FoldedStep(counts: map<string, nat>, c: map<string, nat>, d: map<string, nat>, done: set<string>, key: string)
    requires FoldedIn(counts, c, d, done)
    requires key in d && key !in done
    ensures FoldedIn(counts[key := CountIn(counts, key) + d[key]], c, d, done + {key})
  {
    var next := counts[key := CountIn(counts, key) + d[key]];
    forall k
      ensures CountIn(next, k) == CountIn(c, k) + CountIn(Restrict(d, done + {key}), k)
    {
      if k == key {
        assert CountIn(Restrict(d, done + {key}), k) == d[key];
        assert CountIn(Restrict(d, done), k) == 0;
      } else {
        assert CountIn(Restrict(d, done + {key}), k) == CountIn(Restrict(d, done), k);
      }
    }
  }

  /** Once every key of `d` is folded in, the result is `AddCounts(c, d)`. */
  lemma FoldedAll(counts: map<string, nat>, c: map<string, nat>, d: map<string, nat>, done: set<string>)
    requires FoldedIn(counts, c, d, done)
    requires d.Keys <= done
    ensures counts == AddCounts(c, d)
  {
    var total := AddCounts(c, d);
    assert Restrict(d, done) == d;
    forall k | k in counts
      ensures counts[k] == total[k]
    {
      assert CountIn(counts, k) == CountIn(total, k);
    }
  }

  /** The counter loop of `set_subcommand`: every counter of `d` is added
      into the counter of the same key in `c`, one key at a time, in
      whatever order the keys are taken. */
  method AddEach(c: map<string, nat>, d: map<string, nat>) returns (counts: map<string, nat>)
    ensures counts == AddCounts(c, d)
  {
    counts := c;
    var todo := d.Keys;
    ghost var done: set<string> := {};
    FoldedNothing(c, d);
    while todo != {}
      invariant todo <= d.Keys && done == d.Keys - todo
      invariant FoldedIn(counts, c, d, done)
      decreases todo
    {
      var key :| key in todo;
      FoldedStep(counts, c, d, done, key);
      counts := counts[key := CountIn(counts, key) + d[key]];
      todo := todo - {key};
      done := done + {key};
    }
    FoldedAll(counts, c, d, done);
  }

  /** The order in which two counter maps are folded in does not matter. */
  lemma AddCountsOrderIrrelevant(c: map<string, nat>, d1: map<string, nat>, d2: map<string, nat>)
    ensures AddCounts(AddCounts(c, d1), d2) == AddCounts(AddCounts(c, d2), d1)
  {
    var l := AddCounts(AddCounts(c, d1), d2);
    var r := AddCounts(AddCounts(c, d2), d1);
    forall k | k in l
      ensures l[k] == r[k]
    {
      assert CountIn(l, k) == CountIn(r, k);
    }
  }

  /** Folding all counters of `d` in is folding them in split by any
      partition of the keys: the per-key addition order is irrelevant. */
  lemma AddCountsSplit(c: map<string, nat>, d: map<string, nat>, keys: set<string>)
    ensures AddCounts(AddCounts(c, Restrict(d, keys)), Restrict(d, d.Keys - keys)) == AddCounts(c, d)
  {
    var l := AddCounts(AddCounts(c, Restrict(d, keys)), Restrict(d, d.Keys - keys));
    var r := AddCounts(c, d);
    forall k | k in l
      ensures l[k] == r[k]
    {
      assert CountIn(l, k) == CountIn(r, k);
    }
  }

  class ParsedArgs {
    /** Values per argument name, in insertion order. */
    var args: map<string, seq<string>>
    /** Occurrence counters per argument name. */
    var counts: map<string, nat>
    /** The selected subcommand's name and its own result store. */
    var subcommand: Option<(string, ParsedArgs)>

    /** A name has an entry only once a value has been pushed for it. */
    ghost predicate Valid()
      reads this
    {
      forall k :: k in args ==> args[k] != []
    }

    constructor ()
      ensures Valid()
      ensures args == map[] && counts == map[] && subcommand == None
    {
      args := map[];
      counts := map[];
      subcommand := None;
    }

    /** Every value stored for `key`, in insertion order; empty for a name
        never inserted. */
    function GetAll(key: string): (r: seq<string>)
      reads this
      ensures key !in args ==> r == []
      ensures key in args ==> r == args[key]
    {
      if key in args then args[key] else []
    }

    /** Whether a value was inserted for `key`. */
    function ContainsKey(key: string): (r: bool)
      reads this
      requires Valid()
      ensures r <==> GetAll(key) != []
    {
      key in args
    }

    /** The first value inserted for `key`. */
    function Get(key: string): (r: Option<string>)
      reads this
      requires Valid()
      ensures r.Some? <==> ContainsKey(key)
      ensures r.Some? ==> r.value == GetAll(key)[0]
    {
      if key in args then Some(args[key][0]) else None
    }

    /** The counter of `key`; 0 for a name never incremented. */
    function Count(key: string): (n: nat)
      reads this
      ensures key !in counts ==> n == 0
    {
      CountIn(counts, key)
    }

    function GetSubcommand(): Option<(string, ParsedArgs)>
      reads this
    {
      subcommand
    }

    method Insert(key: string, value: string)
      requires Valid()
      modifies this
      ensures Valid()
      ensures GetAll(key) == old(GetAll(key)) + [value]
      ensures forall k :: k != key ==> GetAll(k) == old(GetAll(k))
      ensures ContainsKey(key)
      ensures Get(key) == if old(ContainsKey(key)) then old(Get(key)) else Some(value)
      ensures args.Keys == old(args.Keys) + {key}
      ensures counts == old(counts) && subcommand == old(subcommand)
    {
      var values := if key in args then args[key] else [];
      args := args[key := values + [value]];
    }

    method InsertFlag(key: string)
      requires Valid()
      modifies this
      ensures Valid()
      ensures GetAll(key) == old(GetAll(key)) + [""]
      ensures forall k :: k != key ==> GetAll(k) == old(GetAll(k))
      ensures ContainsKey(key)
      ensures Get(key) == if old(ContainsKey(key)) then old(Get(key)) else Some("")
      ensures args.Keys == old(args.Keys) + {key}
      ensures counts == old(counts) && subcommand == old(subcommand)
    {
      var values := if key in args then args[key] else [];
      args := args[key := values + [""]];
    }

    method Increment(name: string)
      modifies this
      ensures Count(name) == old(Count(name)) + 1
      ensures forall k :: k != name ==> Count(k) == old(Count(k))
      ensures counts.Keys == old(counts.Keys) + {name}
      ensures args == old(args) && subcommand == old(subcommand)
    {
      var entry := if name in counts then counts[name] else 0;
      counts := counts[name := entry + 1];
    }

    /** Records the selected subcommand; its counters are added into this
        level's counters, key by key, in whatever order the keys come. */
    method SetSubcommand(name: string, sub: ParsedArgs)
      requires sub != this
      modifies this
      ensures counts == AddCounts(old(counts), sub.counts)
      ensures forall k :: Count(k) == old(Count(k)) + sub.Count(k)
      ensures GetSubcommand() == Some((name, sub))
      ensures args == old(args)
    {
      counts := AddEach(counts, sub.counts);
      subcommand := Some((name, sub));
    }
  }
}
