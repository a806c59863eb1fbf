/**
 * The piece supply of `nextPiece` (game.js:89-96): a pool of kinds that is
 * refilled with all seven when empty, from which one kind is removed at a
 * random index per draw. The value of `Math.random()` is supplied by the
 * caller as a real number in [0, 1); the index is `floor(u * n)` as in the
 * source, and every index in [0, n) is the choice of some such number.
 */
module Bag {
  import opened Pieces

  /** A value `Math.random()` can return. */
  type Random = u: real | 0.0 <= u < 1.0

  /** `Object.keys(TETROMINOS)`: the seven kinds in table order. */
  const AllKinds: seq<Kind> := [I, J, L, O, S, T, Z]

  /** `Math.floor(u * n)`: the index a random number u picks in a pool of n kinds. */
  function Index(u: Random, n: nat): (i: nat)
    requires n > 0
    ensures i < n
  {
    Scale(u, n);
    (u * n as real).Floor
  }

  lemma Scale(u: Random, n: nat)
    ensures 0.0 <= u * n as real <= n as real
    ensures n > 0 ==> u * n as real < n as real
  {
  }

  /** Every index of the pool is picked by some random number: i / n picks i. */
  lemma IndexReachable(i: nat, n: nat)
    requires i < n
    ensures 0.0 <= i as real / n as real < 1.0
    ensures Index(i as real / n as real, n) == i
  {
    var u := i as real / n as real;
    assert u * n as real == i as real;
  }

  /** The pool a draw takes from: the pool itself, or all seven kinds when it is empty. */
  function Refilled(pool: seq<Kind>): seq<Kind>
  {
    if |pool| == 0 then AllKinds else pool
  }

  /** One draw: the kind removed (`splice(i, 1)[0]`) and the pool left behind. */
  function Draw(pool: seq<Kind>, u: Random): (Kind, seq<Kind>)
  {
    var src := Refilled(pool);
    var i := Index(u, |src|);
    (src[i], src[..i] + src[i + 1..])
  }

  predicate NoDuplicates(s: seq<Kind>)
  {
    forall i, j :: 0 <= i < j < |s| ==> s[i] != s[j]
  }

  /** What every pool between draws satisfies: at most six kinds left, none twice. */
  predicate BagOk(pool: seq<Kind>)
  {
    |pool| < 7 && NoDuplicates(pool)
  }

  lemma AllKindsDistinct()
    ensures NoDuplicates(AllKinds) && |AllKinds| == 7
    ensures forall k: Kind :: k in AllKinds
  {
    forall k: Kind ensures k in AllKinds {
      match k
      case I => assert AllKinds[0] == k;
      case J => assert AllKinds[1] == k;
      case L => assert AllKinds[2] == k;
      case O => assert AllKinds[3] == k;
      case S => assert AllKinds[4] == k;
      case T => assert AllKinds[5] == k;
      case Z => assert AllKinds[6] == k;
    }
  }

  /**
   * A draw removes exactly one element: the drawn kind plus the pool left
   * behind make up the refilled pool, and the pool is refilled only when empty.
   */
  lemma DrawRemovesOne(pool: seq<Kind>, u: Random)
    ensures pool != [] ==> Refilled(pool) == pool
    ensures |Draw(pool, u).1| == |Refilled(pool)| - 1
    ensures multiset(Draw(pool, u).1) + multiset{Draw(pool, u).0} == multiset(Refilled(pool))
  {
    var src := Refilled(pool);
    RemoveAt(src, Index(u, |src|));
  }

  lemma RemoveAt(s: seq<Kind>, i: nat)
    requires i < |s|
    ensures |s[..i] + s[i + 1..]| == |s| - 1
    ensures multiset(s[..i] + s[i + 1..]) + multiset{s[i]} == multiset(s)
  {
    assert s == s[..i] + [s[i]] + s[i + 1..];
  }

  /** Drawing keeps the pool a bag: no kind twice, and the drawn kind is no longer in it. */
  lemma DrawKeepsBag(pool: seq<Kind>, u: Random)
    requires BagOk(pool)
    ensures BagOk(Draw(pool, u).1)
    ensures Draw(pool, u).0 !in Draw(pool, u).1
  {
    AllKindsDistinct();
    var src := Refilled(pool);
    var i := Index(u, |src|);
    var rest := src[..i] + src[i + 1..];
    forall a, b | 0 <= a < b < |rest| ensures rest[a] != rest[b] {
      var a' := if a < i then a else a + 1;
      var b' := if b < i then b else b + 1;
      assert rest[a] == src[a'] && rest[b] == src[b'];
    }
    forall a | 0 <= a < |rest| ensures rest[a] != src[i] {
      var a' := if a < i then a else a + 1;
      assert rest[a] == src[a'];
    }
  }

  /** The kinds dealt by successive draws with the random numbers us, and the final pool. */
  function Deal(pool: seq<Kind>, us: seq<Random>): (r: (seq<Kind>, seq<Kind>))
    ensures |r.0| == |us|
    decreases |us|
  {
    if us == [] then ([], pool)
    else
      var first := Draw(pool, us[0]);
      var later := Deal(first.1, us[1..]);
      ([first.0] + later.0, later.1)
  }

  /**
   * Dealing as many draws as the pool holds (seven when it starts empty)
   * leaves the pool empty, whatever the random choices.
   */
  lemma {:induction false} DealDrainsPool(pool: seq<Kind>, us: seq<Random>)
    requires |us| == |Refilled(pool)|
    ensures Deal(pool, us).1 == []
    decreases |us|
  {
    DealStep(pool, us);
    DrawRemovesOne(pool, us[0]);
    var first := Draw(pool, us[0]);
    if |us| == 1 {
      assert first.1 == [];
    } else {
      assert Refilled(first.1) == first.1;
      DealDrainsPool(first.1, us[1..]);
    }
  }

  /** ... and deals every kind of the pool exactly as often as it occurs there. */
  lemma {:induction false} DealDealsPool(pool: seq<Kind>, us: seq<Random>)
    requires |us| == |pool|
    ensures multiset(Deal(pool, us).0) == multiset(pool)
    decreases |us|
  {
    if us != [] {
      DealStep(pool, us);
      DrawRemovesOne(pool, us[0]);
      var first := Draw(pool, us[0]);
      DealDealsPool(first.1, us[1..]);
      var later := Deal(first.1, us[1..]).0;
      assert multiset([first.0] + later) == multiset{first.0} + multiset(first.1);
    }
  }

  /** One draw, then the rest. */
  lemma DealStep(pool: seq<Kind>, us: seq<Random>)
    requires us != []
    ensures Deal(pool, us).0 == [Draw(pool, us[0]).0] + Deal(Draw(pool, us[0]).1, us[1..]).0
    ensures Deal(pool, us).1 == Deal(Draw(pool, us[0]).1, us[1..]).1
  {
  }

  /**
   * Seven draws starting from an empty pool (the moment of a refill) deal
   * each of the seven kinds exactly once and leave the pool empty again.
   */
  lemma SevenDrawsDealEachKindOnce(us: seq<Random>)
    requires |us| == 7
    ensures multiset(Deal([], us).0) == multiset(AllKinds)
    ensures forall k: Kind :: multiset(Deal([], us).0)[k] == 1
    ensures Deal([], us).1 == []
  {
    DealDrainsPool([], us);
    DealFromEmpty(us);
    DealDealsPool(AllKinds, us);
    EachKindOnce();
  }

  /** Drawing from an empty pool is drawing from the full pool. */
  lemma DealFromEmpty(us: seq<Random>)
    requires us != []
    ensures Deal([], us) == Deal(AllKinds, us)
  {
    DealStep([], us);
    DealStep(AllKinds, us);
    assert Draw([], us[0]) == Draw(AllKinds, us[0]);
  }

  /** The full pool holds each kind exactly once. */
  lemma EachKindOnce()
    ensures forall k: Kind :: multiset(AllKinds)[k] == 1
  {
    AllKindsDistinct();
    forall k: Kind ensures multiset(AllKinds)[k] == 1 {
      CountOnce(AllKinds, k);
    }
  }

  /** In a sequence without duplicates, every element occurs exactly once. */
  lemma {:induction false} CountOnce(s: seq<Kind>, k: Kind)
    requires NoDuplicates(s) && k in s
    ensures multiset(s)[k] == 1
  {
    if s[0] == k {
      assert k !in s[1..];
    } else {
      CountOnce(s[1..], k);
    }
    assert s == [s[0]] + s[1..];
  }
}
