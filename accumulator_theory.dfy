/** What accumulating a whole run of coins amounts to, and why a witness that tracked every coin but
    its own reproduces the accumulator once its own coin is folded back in. */
module ZerocoinTheory {
  import opened ModArith
  import opened Zerocoin

  /** The product of the coins' values: the total exponent a run of accumulations applies. */
  function Product(coins: seq<PublicCoin>): nat
  {
    if coins == [] then 1 else coins[0].value * Product(coins[1..])
  }

  /** Every coin would pass the denomination and validity checks of an accumulator of denomination d. */
  predicate AllAccepted(d: Denomination, coins: seq<PublicCoin>, isValid: PublicCoin -> bool)
  {
    forall c | c in coins :: c.denomination == d && isValid(c)
  }

  /** Accumulating coins one after another, in order, into value; the first failure is thrown. */
  function FoldSeq(moduli: seq<nat>, d: Denomination, value: seq<nat>, coins: seq<PublicCoin>,
                   isValid: PublicCoin -> bool): (r: Result<seq<nat>>)
    requires LanesFit(moduli, value)
    ensures r.Ok? ==> LanesFit(moduli, r.value) && |r.value| == |value|
    decreases |coins|
  {
    if coins == [] then Ok(value)
    else match Accumulated(moduli, d, value, coins[0], isValid)
      case Err(e) => Err(e)
      case Ok(v) => FoldSeq(moduli, d, v, coins[1..], isValid)
  }

  /** The coins with every copy of e taken out. */
  function Without(coins: seq<PublicCoin>, e: PublicCoin): seq<PublicCoin>
  {
    if coins == [] then []
    else (if coins[0] == e then [] else [coins[0]]) + Without(coins[1..], e)
  }

  /** addElement applied to each coin in order, to the witness value w that excludes element. */
  function WitnessFoldSeq(moduli: seq<nat>, d: Denomination, w: seq<nat>, element: PublicCoin,
                          coins: seq<PublicCoin>, isValid: PublicCoin -> bool): (r: Result<seq<nat>>)
    requires LanesFit(moduli, w)
    ensures r.Ok? ==> LanesFit(moduli, r.value) && |r.value| == |w|
    decreases |coins|
  {
    if coins == [] then Ok(w)
    else match WitnessAdded(moduli, d, w, element, coins[0], isValid)
      case Err(e) => Err(e)
      case Ok(v) => WitnessFoldSeq(moduli, d, v, element, coins[1..], isValid)
  }

  // ---------------------------------------------------------------- two coins commute

  /** Accumulating x then y gives the same lanes as y then x. */
  lemma AccumulateCommutes(moduli: seq<nat>, d: Denomination, value: seq<nat>,
                           x: PublicCoin, y: PublicCoin, isValid: PublicCoin -> bool)
    requires LanesFit(moduli, value)
    requires Accumulated(moduli, d, value, x, isValid).Ok?
    requires Accumulated(moduli, d, value, y, isValid).Ok?
    ensures Accumulated(moduli, d, Accumulated(moduli, d, value, x, isValid).value, y, isValid)
         == Accumulated(moduli, d, Accumulated(moduli, d, value, y, isValid).value, x, isValid)
  {
    var vx := Accumulated(moduli, d, value, x, isValid).value;
    var vy := Accumulated(moduli, d, value, y, isValid).value;
    var xy := Accumulated(moduli, d, vx, y, isValid);
    var yx := Accumulated(moduli, d, vy, x, isValid);
    assert xy.Ok? && yx.Ok?;
    forall i | 0 <= i < |value|
      ensures xy.value[i] == yx.value[i]
    {
      PowModCommutes(value[i], x.value, y.value, moduli[i]);
    }
    assert xy.value == yx.value;
  }

  // ---------------------------------------------------------------- products

  lemma {:induction false} ProductAppend(a: seq<PublicCoin>, b: seq<PublicCoin>)
    ensures Product(a + b) == Product(a) * Product(b)
  {
    if a != [] {
      assert (a + b)[1..] == a[1..] + b;
      ProductAppend(a[1..], b);
    } else {
      assert a + b == b;
    }
  }

  /** Taking out the coin at k takes its value out of the product. */
  lemma ProductRemove(coins: seq<PublicCoin>, k: nat)
    requires k < |coins|
    ensures Product(coins) == coins[k].value * Product(coins[..k] + coins[k + 1..])
  {
    var front, x, back := coins[..k], coins[k], coins[k + 1..];
    var fx := front + [x];
    assert coins == fx + back;
    ProductAppend(fx, back);
    ProductAppend(front, [x]);
    ProductAppend(front, back);
    assert Product([x]) == x.value by {
      assert [x][1..] == [];
    }
    Rearrange(Product(front), x.value, Product(back));
  }

  /** Reassociating a product of three factors (kept apart so the solver sees it alone). */
  lemma Rearrange(a: nat, b: nat, c: nat)
    ensures (a * b) * c == b * (a * c)
  {
  }

  lemma MultisetRemove(coins: seq<PublicCoin>, k: nat)
    requires k < |coins|
    ensures multiset(coins[..k] + coins[k + 1..]) == multiset(coins) - multiset{coins[k]}
  {
    var front, x, back := coins[..k], coins[k], coins[k + 1..];
    assert coins == front + [x] + back;
    assert multiset(coins) == multiset(front) + multiset{x} + multiset(back);
  }

  /** The product of the coin values depends only on the multiset of coins. */
  lemma {:induction false} ProductPermutation(c1: seq<PublicCoin>, c2: seq<PublicCoin>)
    requires multiset(c1) == multiset(c2)
    ensures Product(c1) == Product(c2)
    decreases |c1|
  {
    if c1 == [] {
      assert |c2| == |multiset(c2)| == 0;
    } else {
      var x := c1[0];
      assert x in multiset(c2);
      var k :| 0 <= k < |c2| && c2[k] == x;
      MultisetRemove(c1, 0);
      MultisetRemove(c2, k);
      assert c1[..0] + c1[1..] == c1[1..];
      ProductPermutation(c1[1..], c2[..k] + c2[k + 1..]);
      ProductRemove(c2, k);
    }
  }

  // ---------------------------------------------------------------- folding a run of coins

  /** Folding a + b is folding a and then b, unless folding a fails. */
  lemma {:induction false} FoldSeqAppend(moduli: seq<nat>, d: Denomination, value: seq<nat>,
                                         a: seq<PublicCoin>, b: seq<PublicCoin>, isValid: PublicCoin -> bool)
    requires LanesFit(moduli, value)
    ensures FoldSeq(moduli, d, value, a, isValid).Err? ==>
              FoldSeq(moduli, d, value, a + b, isValid) == FoldSeq(moduli, d, value, a, isValid)
    ensures FoldSeq(moduli, d, value, a, isValid).Ok? ==>
              FoldSeq(moduli, d, value, a + b, isValid)
                == FoldSeq(moduli, d, FoldSeq(moduli, d, value, a, isValid).value, b, isValid)
    decreases |a|
  {
    if a == [] {
      assert a + b == b;
    } else {
      assert (a + b)[0] == a[0];
      assert (a + b)[1..] == a[1..] + b;
      var step := Accumulated(moduli, d, value, a[0], isValid);
      if step.Ok? {
        FoldSeqAppend(moduli, d, step.value, a[1..], b, isValid);
      }
    }
  }

  /** A run of coins is accumulated without error exactly when the accumulator is filled (or the
      run is empty) and every coin passes the denomination and validity checks. */
  lemma {:induction false} FoldSeqOkIff(moduli: seq<nat>, d: Denomination, value: seq<nat>,
                                        coins: seq<PublicCoin>, isValid: PublicCoin -> bool)
    requires LanesFit(moduli, value)
    ensures FoldSeq(moduli, d, value, coins, isValid).Ok?
            <==> (coins == [] || |value| > 0) && AllAccepted(d, coins, isValid)
    decreases |coins|
  {
    if coins != [] {
      assert coins == [coins[0]] + coins[1..];
      var step := Accumulated(moduli, d, value, coins[0], isValid);
      if step.Ok? {
        FoldSeqOkIff(moduli, d, step.value, coins[1..], isValid);
      }
    }
  }

  /** After a non-empty run of coins, every lane is its starting value raised to the product of
      the coin values, modulo that lane's modulus. */
  lemma {:induction false} FoldSeqClosedForm(moduli: seq<nat>, d: Denomination, value: seq<nat>,
                                             coins: seq<PublicCoin>, isValid: PublicCoin -> bool)
    requires LanesFit(moduli, value)
    requires coins != [] && FoldSeq(moduli, d, value, coins, isValid).Ok?
    ensures forall i :: 0 <= i < |value| ==>
              FoldSeq(moduli, d, value, coins, isValid).value[i] == PowMod(value[i], Product(coins), moduli[i])
    decreases |coins|
  {
    var v1 := Accumulated(moduli, d, value, coins[0], isValid).value;
    var r := FoldSeq(moduli, d, value, coins, isValid).value;
    var rest := coins[1..];
    if rest == [] {
      assert r == v1;
      assert Product(coins) == coins[0].value;
    } else {
      FoldSeqClosedForm(moduli, d, v1, rest, isValid);
      forall i | 0 <= i < |value|
        ensures r[i] == PowMod(value[i], Product(coins), moduli[i])
      {
        PowModCompose(value[i], coins[0].value, Product(rest), moduli[i]);
      }
    }
  }

  /** Order independence: accumulating any rearrangement of the same coins gives the same values. */
  lemma FoldSeqPermutation(moduli: seq<nat>, d: Denomination, value: seq<nat>,
                           c1: seq<PublicCoin>, c2: seq<PublicCoin>, isValid: PublicCoin -> bool)
    requires LanesFit(moduli, value)
    requires multiset(c1) == multiset(c2)
    requires FoldSeq(moduli, d, value, c1, isValid).Ok?
    ensures FoldSeq(moduli, d, value, c2, isValid) == FoldSeq(moduli, d, value, c1, isValid)
  {
    assert |c1| == |multiset(c1)| == |multiset(c2)| == |c2|;
    FoldSeqOkIff(moduli, d, value, c1, isValid);
    forall c | c in c2
      ensures c.denomination == d && isValid(c)
    {
      assert c in multiset(c1);
    }
    FoldSeqOkIff(moduli, d, value, c2, isValid);
    if c1 != [] {
      FoldSeqClosedForm(moduli, d, value, c1, isValid);
      FoldSeqClosedForm(moduli, d, value, c2, isValid);
      ProductPermutation(c1, c2);
      var r1, r2 := FoldSeq(moduli, d, value, c1, isValid).value, FoldSeq(moduli, d, value, c2, isValid).value;
      assert forall i :: 0 <= i < |value| ==> r1[i] == r2[i];
      assert r1 == r2;
    }
  }

  /** A non-empty run of accepted coins into a filled accumulator raises every lane to the product
      of the coin values. */
  lemma FoldSeqAccepted(moduli: seq<nat>, d: Denomination, value: seq<nat>,
                        coins: seq<PublicCoin>, isValid: PublicCoin -> bool)
    requires LanesFit(moduli, value) && |value| > 0
    requires coins != [] && AllAccepted(d, coins, isValid)
    ensures FoldSeq(moduli, d, value, coins, isValid) == Ok(RaiseLanes(value, Product(coins), moduli))
  {
    FoldSeqOkIff(moduli, d, value, coins, isValid);
    FoldSeqClosedForm(moduli, d, value, coins, isValid);
    assert FoldSeq(moduli, d, value, coins, isValid).value == RaiseLanes(value, Product(coins), moduli);
  }

  // ---------------------------------------------------------------- witnesses

  lemma {:induction false} WithoutMultiset(coins: seq<PublicCoin>, e: PublicCoin)
    ensures multiset(Without(coins, e)) == multiset(coins)[e := 0]
  {
    if coins != [] {
      WithoutMultiset(coins[1..], e);
      assert coins == [coins[0]] + coins[1..];
    }
  }

  /** A witness that is offered a run of coins ends where the accumulator would after the same run
      with every copy of the excluded coin taken out. */
  lemma {:induction false} WitnessFoldIsFoldWithout(moduli: seq<nat>, d: Denomination, w: seq<nat>,
                                                    element: PublicCoin, coins: seq<PublicCoin>,
                                                    isValid: PublicCoin -> bool)
    requires LanesFit(moduli, w)
    ensures WitnessFoldSeq(moduli, d, w, element, coins, isValid)
         == FoldSeq(moduli, d, w, Without(coins, element), isValid)
    decreases |coins|
  {
    if coins != [] {
      var rest := Without(coins[1..], element);
      if coins[0] == element {
        assert Without(coins, element) == rest;
        WitnessFoldIsFoldWithout(moduli, d, w, element, coins[1..], isValid);
      } else {
        var wo := Without(coins, element);
        assert wo == [coins[0]] + rest;
        assert wo[0] == coins[0] && wo[1..] == rest;
        var step := Accumulated(moduli, d, w, coins[0], isValid);
        if step.Ok? {
          WitnessFoldIsFoldWithout(moduli, d, step.value, element, coins[1..], isValid);
        }
      }
    }
  }

  /** Offering a witness its own coin, any number of times, changes nothing and never fails. */
  lemma {:induction false} OwnCoinNeverFolded(moduli: seq<nat>, d: Denomination, w: seq<nat>,
                                              element: PublicCoin, coins: seq<PublicCoin>,
                                              isValid: PublicCoin -> bool)
    requires LanesFit(moduli, w)
    requires forall i :: 0 <= i < |coins| ==> coins[i] == element
    ensures WitnessFoldSeq(moduli, d, w, element, coins, isValid) == Ok(w)
    decreases |coins|
  {
    if coins != [] {
      OwnCoinNeverFolded(moduli, d, w, element, coins[1..], isValid);
    }
  }

  /** Witness round trip: start an accumulator and a witness for e from the same checkpoint value,
      accumulate a run of coins that holds e exactly once, and offer the witness the same run.
      Then the witness tracks without error and verifyWitness(accumulator, e) is true. */
  lemma WitnessRoundTrip(moduli: seq<nat>, d: Denomination, checkpoint: seq<nat>, e: PublicCoin,
                         coins: seq<PublicCoin>, isValid: PublicCoin -> bool)
    requires LanesFit(moduli, checkpoint)
    requires multiset(coins)[e] == 1
    requires FoldSeq(moduli, d, checkpoint, coins, isValid).Ok?
    ensures WitnessFoldSeq(moduli, d, checkpoint, e, coins, isValid).Ok?
    ensures Verified(moduli, d, WitnessFoldSeq(moduli, d, checkpoint, e, coins, isValid).value, e,
                     FoldSeq(moduli, d, checkpoint, coins, isValid).value, e, isValid) == Ok(true)
  {
    var others := Without(coins, e);
    WitnessFoldIsFoldWithout(moduli, d, checkpoint, e, coins, isValid);
    WithoutMultiset(coins, e);
    assert multiset(others + [e]) == multiset(coins);
    FoldSeqOkIff(moduli, d, checkpoint, coins, isValid);
    assert e in coins;
    forall c | c in others + [e]
      ensures c.denomination == d && isValid(c)
    {
      assert c in multiset(coins);
    }
    FoldSeqOkIff(moduli, d, checkpoint, others + [e], isValid);
    FoldSeqPermutation(moduli, d, checkpoint, others + [e], coins, isValid);
    FoldSeqAppend(moduli, d, checkpoint, others, [e], isValid);
    var w := FoldSeq(moduli, d, checkpoint, others, isValid).value;
    assert FoldSeq(moduli, d, w, [e], isValid) == Accumulated(moduli, d, w, e, isValid);
  }

  // ---------------------------------------------------------------- worked scenarios

  /** One modulus, coins 3, 5 and 7: both orders reach b^105 mod m. */
  lemma ScenarioSingleModulus(b: nat, m: nat, d: Denomination, isValid: PublicCoin -> bool)
    requires m > 0
    requires isValid(PublicCoin(3, d)) && isValid(PublicCoin(5, d)) && isValid(PublicCoin(7, d))
    ensures FoldSeq([m], d, [b], [PublicCoin(3, d), PublicCoin(5, d), PublicCoin(7, d)], isValid)
              == Ok([PowMod(b, 105, m)])
    ensures FoldSeq([m], d, [b], [PublicCoin(7, d), PublicCoin(3, d), PublicCoin(5, d)], isValid)
              == Ok([PowMod(b, 105, m)])
  {
    var c3, c5, c7 := PublicCoin(3, d), PublicCoin(5, d), PublicCoin(7, d);
    var order1, order2 := [c3, c5, c7], [c7, c3, c5];
    assert Product(order1) == 105 by {
      assert order1[1..] == [c5, c7] && [c5, c7][1..] == [c7] && [c7][1..] == [];
      assert Product([c7]) == 7;
      assert Product([c5, c7]) == 35;
    }
    FoldSeqAccepted([m], d, [b], order1, isValid);
    assert RaiseLanes([b], 105, [m]) == [PowMod(b, 105, m)];
    assert multiset(order1) == multiset(order2);
    FoldSeqPermutation([m], d, [b], order1, order2, isValid);
  }

  /** The witness for coin 5 among 3, 5, 7 holds b^21 mod m and verifies against b^105 mod m. */
  lemma ScenarioWitness(b: nat, m: nat, d: Denomination, isValid: PublicCoin -> bool)
    requires m > 0
    requires isValid(PublicCoin(3, d)) && isValid(PublicCoin(5, d)) && isValid(PublicCoin(7, d))
    ensures WitnessFoldSeq([m], d, [b], PublicCoin(5, d),
                           [PublicCoin(3, d), PublicCoin(5, d), PublicCoin(7, d)], isValid)
              == Ok([PowMod(b, 21, m)])
    ensures Verified([m], d, [PowMod(b, 21, m)], PublicCoin(5, d), [PowMod(b, 105, m)],
                     PublicCoin(5, d), isValid) == Ok(true)
  {
    var c3, c5, c7 := PublicCoin(3, d), PublicCoin(5, d), PublicCoin(7, d);
    var coins, others := [c3, c5, c7], [c3, c7];
    assert Without(coins, c5) == others by {
      assert coins[1..] == [c5, c7] && [c5, c7][1..] == [c7] && [c7][1..] == [];
      assert Without([c7], c5) == [c7];
    }
    assert Product(others) == 21 by {
      assert others[1..] == [c7] && [c7][1..] == [];
      assert Product([c7]) == 7;
    }
    WitnessFoldIsFoldWithout([m], d, [b], c5, coins, isValid);
    FoldSeqAccepted([m], d, [b], others, isValid);
    assert RaiseLanes([b], 21, [m]) == [PowMod(b, 21, m)];
    ScenarioSingleModulus(b, m, d, isValid);
    WitnessRoundTrip([m], d, [b], c5, coins, isValid);
  }

  /** Two moduli: coin 9 raises each lane under its own base and modulus. */
  lemma ScenarioTwoModuli(b0: nat, b1: nat, m0: nat, m1: nat, d: Denomination, isValid: PublicCoin -> bool)
    requires m0 > 0 && m1 > 0 && isValid(PublicCoin(9, d))
    ensures Accumulated([m0, m1], d, [b0, b1], PublicCoin(9, d), isValid)
              == Ok([PowMod(b0, 9, m0), PowMod(b1, 9, m1)])
  {
    var r := Accumulated([m0, m1], d, [b0, b1], PublicCoin(9, d), isValid);
    assert r.Ok? && |r.value| == 2;
    assert r.value[0] == PowMod(b0, 9, m0) && r.value[1] == PowMod(b1, 9, m1);
    assert r.value == [PowMod(b0, 9, m0), PowMod(b1, 9, m1)];
  }
}
