/** The streams between the stages of the prime sieve (fork/primes.c): stage k
    forwards what its first number does not divide. */
module SieveStreams {

  predicate Divides(d: int, m: int) { d != 0 && m % d == 0 }

  ghost predicate IsPrime(m: int) { m >= 2 && forall d :: 2 <= d < m ==> !Divides(d, m) }

  // Increasing numbers that start at 2 or later.
  predicate IsStream(s: seq<int>) {
    forall i, j {:trigger s[i], s[j]} :: 0 <= i <= j < |s| ==> 2 <= s[i] <= s[j] && (i < j ==> s[i] < s[j])
  }

  // The numbers from 2 up to but not including m.
  function From2(m: int): (s: seq<int>) { if m <= 2 then [] else From2(m - 1) + [m - 1] }

  // What passes a stage that holds p.
  function Filter(p: int, s: seq<int>): (r: seq<int>)
    ensures |r| <= |s|
  {
    if s == [] then []
    else Filter(p, s[..|s| - 1]) + if Divides(p, s[|s| - 1]) then [] else [s[|s| - 1]]
  }

  /** All that stage k reads in a complete run for the numbers 2..n. */
  function Total(n: int, k: nat): (s: seq<int>) {
    if k == 0 then From2(n + 1)
    else if Total(n, k - 1) == [] then []
    else Filter(Total(n, k - 1)[0], Total(n, k - 1)[1..])
  }

  lemma {:induction false} From2Members(m: int, x: int)
    ensures x in From2(m) <==> 2 <= x < m
  {
    if m > 2 {
      From2Members(m - 1, x);
    }
  }

  lemma {:induction false} From2IsStream(m: int)
    ensures IsStream(From2(m)) && |From2(m)| == if m <= 2 then 0 else m - 2
  {
    if m > 2 {
      From2IsStream(m - 1);
      SnocIsStream(From2(m - 1), m - 1);
      forall x {:trigger x in From2(m - 1)} | x in From2(m - 1) ensures x < m - 1 {
        From2Members(m - 1, x);
      }
    }
  }

  lemma SnocIsStream(s: seq<int>, x: int)
    requires IsStream(s) && x >= 2
    ensures (forall y :: y in s ==> y < x) ==> IsStream(s + [x])
  {
    if forall y :: y in s ==> y < x {
      forall i | 0 <= i < |s| ensures s[i] < x {
        assert s[i] in s;
      }
    }
  }

  lemma {:induction false} FilterMembers(p: int, s: seq<int>, m: int)
    ensures m in Filter(p, s) <==> m in s && !Divides(p, m)
  {
    if s != [] {
      FilterMembers(p, s[..|s| - 1], m);
      assert s == s[..|s| - 1] + [s[|s| - 1]];
    }
  }

  lemma {:induction false} FilterIsStream(p: int, s: seq<int>)
    requires IsStream(s)
    ensures IsStream(Filter(p, s))
  {
    if s != [] {
      var init, last := s[..|s| - 1], s[|s| - 1];
      FilterIsStream(p, init);
      forall y | y in Filter(p, init) ensures y < last {
        FilterMembers(p, init, y);
        var i :| 0 <= i < |init| && init[i] == y;
        assert s[i] == y;
      }
      assert s[|s| - 1] >= 2;
      SnocIsStream(Filter(p, init), last);
    }
  }

  lemma {:induction false} TotalIsStream(n: int, k: nat)
    ensures IsStream(Total(n, k))
  {
    if k == 0 {
      From2IsStream(n + 1);
    } else {
      TotalIsStream(n, k - 1);
      if Total(n, k - 1) != [] {
        FilterIsStream(Total(n, k - 1)[0], Total(n, k - 1)[1..]);
      }
    }
  }

  // A longer input gives a longer output.
  lemma {:induction false} FilterPrefix(p: int, s: seq<int>, t: seq<int>)
    requires s <= t
    ensures Filter(p, s) <= Filter(p, t)
    decreases |t|
  {
    if |s| < |t| {
      FilterPrefix(p, s, t[..|t| - 1]);
    } else {
      assert s == t;
    }
  }

  // Stage k gets a number that it will hold.
  predicate Reached(n: int, k: nat) { Total(n, k) != [] }

  function First(n: int, k: nat): int
    requires Reached(n, k)
  {
    Total(n, k)[0]
  }

  predicate Strikes(n: int, k: nat, m: int) { Reached(n, k) && Divides(First(n, k), m) }

  // No stage before k strikes out m.
  predicate Survives(n: int, k: nat, m: int) {
    k == 0 || (Survives(n, k - 1, m) && Reached(n, k - 1) && !Strikes(n, k - 1, m))
  }

  lemma {:induction false} SurvivorsNotStruck(n: int, k: nat, m: int, j: nat)
    requires Survives(n, k, m) && j < k
    ensures !Strikes(n, j, m)
  {
    if j < k - 1 {
      SurvivorsNotStruck(n, k - 1, m, j);
    }
  }

  ghost predicate AllReached(n: int, k: nat) { forall j: nat {:trigger Reached(n, j)} :: j < k ==> Reached(n, j) }

  lemma {:induction false} Striker(n: int, k: nat, m: int) returns (j: nat)
    requires AllReached(n, k) && !Survives(n, k, m)
    ensures j < k && Strikes(n, j, m)
  {
    assert Reached(n, k - 1);
    if Strikes(n, k - 1, m) {
      j := k - 1;
    } else {
      j := Striker(n, k - 1, m);
    }
  }

  lemma TotalStep(n: int, k: nat, m: int)
    requires Reached(n, k)
    ensures m in Total(n, k + 1) <==> m in Total(n, k) && !Divides(First(n, k), m)
  {
    var t := Total(n, k);
    TotalIsStream(n, k);
    assert t == [t[0]] + t[1..] && t[0] >= 2;
    FilterMembers(t[0], t[1..], m);
  }

  // The stream of stage k holds exactly what no earlier stage strikes out.
  lemma {:induction false} TotalMembers(n: int, k: nat, m: int)
    ensures m in Total(n, k) <==> 2 <= m <= n && Survives(n, k, m)
  {
    if k == 0 {
      From2Members(n + 1, m);
    } else {
      TotalMembers(n, k - 1, m);
      if Reached(n, k - 1) {
        TotalStep(n, k - 1, m);
      }
    }
  }

  lemma FirstIsLeast(n: int, k: nat, m: int)
    requires Reached(n, k) && m in Total(n, k)
    ensures 2 <= First(n, k) <= m <= n && Survives(n, k, First(n, k))
  {
    TotalIsStream(n, k);
    TotalMembers(n, k, First(n, k));
    TotalMembers(n, k, m);
    var i :| 0 <= i < |Total(n, k)| && Total(n, k)[i] == m;
    assert Total(n, k)[0] <= Total(n, k)[i];
  }

  lemma TotalShrinks(n: int, k: nat)
    requires Reached(n, k)
    ensures |Total(n, k + 1)| < |Total(n, k)|
    ensures Reached(n, k + 1) ==> First(n, k) < First(n, k + 1)
  {
    if Reached(n, k + 1) {
      var t := Total(n, k);
      FilterMembers(t[0], t[1..], First(n, k + 1));
      TotalIsStream(n, k);
      var i :| 0 <= i < |t[1..]| && t[1..][i] == First(n, k + 1);
      assert t[0] < t[i + 1];
    }
  }

  // ---------------------------------------------------------------------
  // Divisibility

  lemma PositiveMultiple(a: int, t: int)
    requires a > 0 && t >= 1
    ensures a * t >= a
  {
    assert a * t == a + a * (t - 1);
  }

  lemma SmallMultiple(a: int, t: int, r: int)
    requires a > 0 && a * t == r && 0 <= r < a
    ensures r == 0
  {
    if t >= 1 {
      PositiveMultiple(a, t);
    }
  }

  lemma MultipleOf(a: int, k: int)
    requires a > 0
    ensures Divides(a, a * k)
  {
    var q, r := (a * k) / a, (a * k) % a;
    assert a * (k - q) == a * k - a * q;
    SmallMultiple(a, k - q, r);
  }

  lemma Quotient(a: int, b: int) returns (x: int)
    requires a > 0 && Divides(a, b)
    ensures b == a * x
  {
    x := b / a;
  }

  lemma DividesTrans(a: int, b: int, c: int)
    requires a > 0 && b > 0 && Divides(a, b) && Divides(b, c)
    ensures Divides(a, c)
  {
    var x := Quotient(a, b);
    var y := Quotient(b, c);
    assert (a * x) * y == a * (x * y);
    MultipleOf(a, x * y);
  }

  lemma DivisorIsSmaller(d: int, m: int)
    requires d > 0 && m > 0 && Divides(d, m)
    ensures d <= m
  {
  }

  // ---------------------------------------------------------------------
  // The stages hold the primes

  // What a stage holds is prime: a proper divisor would have been struck out by
  // an earlier stage, and the number with it.
  lemma NoProperDivisor(n: int, k: nat, d: int)
    requires Reached(n, k) && AllReached(n, k) && 2 <= d < First(n, k)
    ensures !Divides(d, First(n, k))
  {
    var q := First(n, k);
    FirstIsLeast(n, k, q);
    if Divides(d, q) {
      TotalMembers(n, k, d);
      if d in Total(n, k) {
        FirstIsLeast(n, k, d);
      } else {
        var j := Striker(n, k, d);
        FirstIsLeast(n, j, First(n, j));
        DividesTrans(First(n, j), d, q);
        SurvivorsNotStruck(n, k, q, j);
      }
    }
  }

  lemma FirstIsPrime(n: int, k: nat)
    requires Reached(n, k) && AllReached(n, k)
    ensures IsPrime(First(n, k)) && First(n, k) <= n
  {
    FirstIsLeast(n, k, First(n, k));
    forall d | 2 <= d < First(n, k) ensures !Divides(d, First(n, k)) {
      NoProperDivisor(n, k, d);
    }
  }

  // Once a stage gets nothing, every prime up to n is held by an earlier stage.
  lemma PrimeIsHeld(n: int, k: nat, m: int) returns (j: nat)
    requires !Reached(n, k) && AllReached(n, k) && IsPrime(m) && m <= n
    ensures j < k && Reached(n, j) && First(n, j) == m
  {
    TotalMembers(n, k, m);
    j := Striker(n, k, m);
    FirstIsLeast(n, j, First(n, j));
    DivisorIsSmaller(First(n, j), m);
  }

  // What the first k stages hold.
  ghost function Firsts(n: int, k: nat): (s: seq<int>)
    requires AllReached(n, k)
    ensures |s| == k
  {
    if k == 0 then [] else Firsts(n, k - 1) + [First(n, k - 1)]
  }

  lemma {:induction false} FirstsAt(n: int, k: nat, j: nat)
    requires AllReached(n, k) && j < k
    ensures Reached(n, j) && Firsts(n, k)[j] == First(n, j)
  {
    if j < k - 1 {
      FirstsAt(n, k - 1, j);
    }
  }

  lemma {:induction false} FirstsIncrease(n: int, i: nat, j: nat)
    requires i < j && AllReached(n, j + 1)
    ensures Reached(n, i) && Reached(n, j) && First(n, i) < First(n, j)
  {
    assert Reached(n, i) && Reached(n, j) && Reached(n, j - 1);
    TotalShrinks(n, j - 1);
    if i < j - 1 {
      FirstsIncrease(n, i, j - 1);
    }
  }

  /** The primes up to n, once each and increasing. */
  ghost predicate ArePrimesUpTo(s: seq<int>, n: int) {
    && (forall i, j {:trigger s[i], s[j]} :: 0 <= i < j < |s| ==> s[i] < s[j])
    && (forall m :: m in s <==> IsPrime(m) && m <= n)
  }

  /** If stage k is the first to get nothing, the earlier ones hold exactly the
      primes up to n. */
  lemma HeldArePrimes(n: int, k: nat)
    requires !Reached(n, k) && AllReached(n, k)
    ensures ArePrimesUpTo(Firsts(n, k), n)
  {
    forall i, j | 0 <= i < j < k ensures Firsts(n, k)[i] < Firsts(n, k)[j] {
      FirstsAt(n, k, i);
      FirstsAt(n, k, j);
      FirstsIncrease(n, i, j);
    }
    forall m ensures m in Firsts(n, k) <==> IsPrime(m) && m <= n {
      if m in Firsts(n, k) {
        var j :| 0 <= j < k && Firsts(n, k)[j] == m;
        FirstsAt(n, k, j);
        FirstIsPrime(n, j);
      } else if IsPrime(m) && m <= n {
        var j := PrimeIsHeld(n, k, m);
        FirstsAt(n, k, j);
      }
    }
  }
}
