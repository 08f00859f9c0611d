/** The pieces every draft of the migration chain shares: running steps in declaration
    order, looking a version up by position, and the entries of a shared registry. */
module Steps {

  /** Runs `fs[0]` first, then `fs[1]`, and so on, each on the previous step's output:
      the body of every migrate loop. */
  function Apply<T>(fs: seq<T -> T>, x: T): T
    decreases |fs|
  {
    if |fs| == 0 then x else Apply(fs[1..], fs[0](x))
  }

  /** Appending one step to a chain runs it last, on the output of all the earlier ones. */
  lemma {:induction false} ApplySnoc<T>(fs: seq<T -> T>, f: T -> T, x: T)
    ensures Apply(fs + [f], x) == f(Apply(fs, x))
    decreases |fs|
  {
    if |fs| == 0 {
      assert fs + [f] == [f];
      assert [f][1..] == [];
    } else {
      assert (fs + [f])[1..] == fs[1..] + [f];
      ApplySnoc(fs[1..], f, fs[0](x));
    }
  }

  /** The deep copy taken before a step runs. Steps are pure here, so a copy is
      indistinguishable from the value it was taken of. */
  function Clone<T>(x: T): T {
    x
  }

  /** `Array.prototype.indexOf`: the first position holding `x`, or -1. */
  function IndexOf<V(==)>(s: seq<V>, x: V): (r: int)
    ensures -1 <= r < |s|
    ensures r == -1 <==> x !in s
    ensures 0 <= r ==> s[r] == x && x !in s[..r]
    decreases |s|
  {
    if |s| == 0 then -1
    else if s[0] == x then 0
    else
      var r := IndexOf(s[1..], x);
      if r == -1 then -1 else r + 1
  }

  /** Appending to a sequence does not move the first occurrence of an element it holds. */
  lemma {:induction false} IndexOfAppend<V>(s: seq<V>, t: seq<V>, x: V)
    requires x in s
    ensures IndexOf(s + t, x) == IndexOf(s, x)
    decreases |s|
  {
    if s[0] != x {
      assert (s + t)[1..] == s[1..] + t;
      IndexOfAppend(s[1..], t, x);
    }
  }

  /** No element occurs twice (the keys of a JavaScript `Map`). */
  predicate Distinct<V(==)>(s: seq<V>)
    decreases |s|
  {
    |s| == 0 || (s[0] !in s[1..] && Distinct(s[1..]))
  }

  /** In a sequence without repeats, looking up the element at `i` finds `i`. */
  lemma {:induction false} IndexOfDistinct<V>(s: seq<V>, i: int)
    requires Distinct(s)
    requires 0 <= i < |s|
    ensures IndexOf(s, s[i]) == i
    decreases |s|
  {
    if i > 0 {
      assert s[i] == s[1..][i - 1];
      IndexOfDistinct(s[1..], i - 1);
    }
  }

  /** Appending an element a sequence does not hold keeps it free of repeats. */
  lemma {:induction false} DistinctAppend<V>(s: seq<V>, x: V)
    requires Distinct(s) && x !in s
    ensures Distinct(s + [x])
    decreases |s|
  {
    if |s| > 0 {
      assert (s + [x])[1..] == s[1..] + [x];
      DistinctAppend(s[1..], x);
    }
  }

  /** A function held in a shared registry: the zero-argument producer of the initial
      data, or a step from the previous version's data to the next one's. */
  datatype Entry<!T> = Producer(make: () -> T) | Step(fn: T -> T)

  /** What calling a registered function with one argument does; a producer ignores it. */
  function AsFunction<T>(e: Entry<T>): T -> T {
    match e
    case Producer(make) => (_: T) => make()
    case Step(fn) => fn
  }

  /** The functions that running `es` in order calls. */
  function Functions<T>(es: seq<Entry<T>>): (fs: seq<T -> T>)
    ensures |fs| == |es|
    ensures forall i :: 0 <= i < |es| ==> fs[i] == AsFunction(es[i])
  {
    seq(|es|, i requires 0 <= i < |es| => AsFunction(es[i]))
  }
}
