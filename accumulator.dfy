/** The Zerocoin accumulator and accumulator witness.

    An Accumulator holds one value per RSA-style modulus ("lane"); folding a coin in raises every
    lane to the coin's value modulo that lane's modulus. An AccumulatorWitness holds a copy of a
    checkpoint accumulator into which every coin except one excluded coin is folded; folding the
    excluded coin back in must reproduce the public accumulator. */
module Zerocoin {
  import opened ModArith

  /** The face value of a CoinDenomination; only its equality matters here. */
  type Denomination = nat

  type LaneCount = n: nat | 1 <= n witness 1

  /** UFO_COUNT, the number of moduli in the modulus set; fixed at build time, at least one. */
  const UFO_COUNT: LaneCount

  /** The exceptions the accumulator code throws, by kind. */
  datatype Error =
    | InvalidParameters
    | NotInitialized
    | DenominationMismatch(expected: Denomination, got: Denomination)
    | InvalidCoin
    | IndexOutOfRange

  datatype Result<T> = Ok(value: T) | Err(error: Error)

  /** Completion of an operation that returns nothing or throws. */
  datatype Outcome = Pass | Fail(error: Error)

  /** A public coin: its commitment value (the exponent) and its denomination.
      Two coins are taken to be equal when both parts are equal. */
  datatype PublicCoin = PublicCoin(value: nat, denomination: Denomination)

  /** The parts of the trusted-setup parameter object the accumulator reads. */
  datatype Params = Params(initialized: bool, accumulatorBases: seq<nat>, accumulatorModuli: seq<nat>)

  /** What trusted setup guarantees of initialized parameters: one positive modulus per lane. */
  predicate ModuliOk(p: Params)
  {
    |p.accumulatorModuli| == UFO_COUNT &&
    forall i :: 0 <= i < |p.accumulatorModuli| ==> p.accumulatorModuli[i] > 0
  }

  /** Every lane of value has a positive modulus to be reduced by. */
  predicate LanesFit(moduli: seq<nat>, value: seq<nat>)
  {
    |value| <= |moduli| && forall i :: 0 <= i < |moduli| ==> moduli[i] > 0
  }

  /** The three checks accumulate makes before touching any lane, in the order it makes them. */
  function AccumulateGuard(d: Denomination, value: seq<nat>, coin: PublicCoin,
                           isValid: PublicCoin -> bool): (r: Outcome)
    ensures r == Fail(NotInitialized) <==> |value| == 0
    ensures r == Fail(DenominationMismatch(d, coin.denomination)) <==> |value| > 0 && d != coin.denomination
    ensures r == Fail(InvalidCoin) <==> |value| > 0 && d == coin.denomination && !isValid(coin)
    ensures r == Pass <==> |value| > 0 && d == coin.denomination && isValid(coin)
  {
    if |value| == 0 then Fail(NotInitialized)
    else if d != coin.denomination then Fail(DenominationMismatch(d, coin.denomination))
    else if !isValid(coin) then Fail(InvalidCoin)
    else Pass
  }

  /** Every lane raised to e modulo its own modulus. */
  function RaiseLanes(value: seq<nat>, e: nat, moduli: seq<nat>): (r: seq<nat>)
    requires LanesFit(moduli, value)
    ensures LanesFit(moduli, r) && |r| == |value|
    ensures forall i :: 0 <= i < |r| ==> r[i] < moduli[i]
  {
    seq(|value|, i requires 0 <= i < |value| => PowMod(value[i], e, moduli[i]))
  }

  /** The value sequence after accumulating coin into value, or the error accumulate throws. */
  function Accumulated(moduli: seq<nat>, d: Denomination, value: seq<nat>, coin: PublicCoin,
                       isValid: PublicCoin -> bool): (r: Result<seq<nat>>)
    requires LanesFit(moduli, value)
    ensures r.Err? <==> AccumulateGuard(d, value, coin, isValid).Fail?
    ensures r.Err? ==> r.error == AccumulateGuard(d, value, coin, isValid).error
    ensures r.Ok? ==> LanesFit(moduli, r.value) && |r.value| == |value| &&
                      forall i :: 0 <= i < |value| ==> r.value[i] == PowMod(value[i], coin.value, moduli[i])
  {
    match AccumulateGuard(d, value, coin, isValid)
    case Fail(e) => Err(e)
    case Pass => Ok(RaiseLanes(value, coin.value, moduli))
  }

  /** The witness value after addElement(c): the excluded coin is skipped silently,
      any other coin is accumulated. */
  function WitnessAdded(moduli: seq<nat>, d: Denomination, w: seq<nat>, element: PublicCoin,
                        c: PublicCoin, isValid: PublicCoin -> bool): (r: Result<seq<nat>>)
    requires LanesFit(moduli, w)
    ensures c == element ==> r == Ok(w)
    ensures c != element ==> r == Accumulated(moduli, d, w, c, isValid)
  {
    if c == element then Ok(w) else Accumulated(moduli, d, w, c, isValid)
  }

  /** The outcome of verifyWitness: fold the excluded coin into a copy of the witness value and
      compare with the accumulator's value, and compare the coins; a failing fold is thrown. */
  function Verified(moduli: seq<nat>, d: Denomination, w: seq<nat>, element: PublicCoin,
                    a: seq<nat>, publicCoin: PublicCoin, isValid: PublicCoin -> bool): (r: Result<bool>)
    requires LanesFit(moduli, w)
    ensures r.Err? <==> Accumulated(moduli, d, w, element, isValid).Err?
    ensures r == Ok(true) <==> Accumulated(moduli, d, w, element, isValid) == Ok(a) && publicCoin == element
  {
    match Accumulated(moduli, d, w, element, isValid)
    case Err(e) => Err(e)
    case Ok(t) => Ok(t == a && element == publicCoin)
  }

  class Accumulator {
    const params: Params
    const denomination: Denomination
    var value: seq<nat>

    /** The object invariant. The value may be empty (an accumulator never filled from parameters,
        which accumulate rejects); otherwise each lane has a modulus. */
    ghost predicate Valid()
      reads this
    {
      ModuliOk(params) && |value| <= UFO_COUNT
    }

    /** An accumulator as construction leaves it: exactly one value per modulus. */
    ghost predicate Live()
      reads this
    {
      Valid() && |value| == UFO_COUNT
    }

    /** The member-initialiser part of construction: store the parameters and denomination and
        append the parameter object's bases one by one. */
    constructor FromParams(p: Params, d: Denomination)
      ensures params == p && denomination == d && value == p.accumulatorBases
    {
      params := p;
      denomination := d;
      var v: seq<nat> := [];
      var i := 0;
      while i < |p.accumulatorBases|
        invariant 0 <= i <= |p.accumulatorBases|
        invariant v == p.accumulatorBases[..i]
      {
        v := v + [p.accumulatorBases[i]];
        i := i + 1;
      }
      value := v;
    }

    /** The implicit copy constructor. */
    constructor Copy(other: Accumulator)
      ensures params == other.params && denomination == other.denomination && value == other.value
      ensures other.Valid() ==> Valid()
      ensures other.Live() ==> Live()
    {
      params := other.params;
      denomination := other.denomination;
      value := other.value;
    }

    /** Accumulator(p, d): fails on uninitialized parameters, copies the bases in order, then fails
        unless there is exactly one base per modulus. */
    static method Create(p: Params, d: Denomination) returns (res: Result<Accumulator>)
      requires p.initialized ==> ModuliOk(p)
      ensures res.Err? <==> !p.initialized || |p.accumulatorBases| != UFO_COUNT
      ensures res.Err? ==> res.error == InvalidParameters
      ensures res.Ok? ==> fresh(res.value) && res.value.Live() &&
                          res.value.params == p && res.value.denomination == d &&
                          res.value.value == p.accumulatorBases
    {
      if !p.initialized {
        return Err(InvalidParameters);
      }
      var a := new Accumulator.FromParams(p, d);
      if |a.value| != UFO_COUNT {
        return Err(InvalidParameters);
      }
      return Ok(a);
    }

    /** accumulate(coin): on any failed check nothing changes; otherwise every lane i becomes
        value[i]^coin.value mod accumulatorModuli[i], each lane from its own old value. */
    method Accumulate(coin: PublicCoin, isValid: PublicCoin -> bool) returns (res: Outcome)
      requires Valid()
      modifies this
      ensures Valid() && |value| == |old(value)|
      ensures old(Live()) ==> Live()
      ensures res == AccumulateGuard(denomination, old(value), coin, isValid)
      ensures res.Fail? ==> value == old(value)
      ensures res.Pass? ==> forall i :: 0 <= i < |value| ==>
                value[i] == PowMod(old(value)[i], coin.value, params.accumulatorModuli[i])
      ensures Accumulated(params.accumulatorModuli, denomination, old(value), coin, isValid)
                == (if res.Pass? then Ok(value) else Err(res.error))
    {
      if |value| == 0 {
        return Fail(NotInitialized);
      }
      if denomination != coin.denomination {
        return Fail(DenominationMismatch(denomination, coin.denomination));
      }
      if !isValid(coin) {
        return Fail(InvalidCoin);
      }
      var i := 0;
      while i < |value|
        invariant 0 <= i <= |value| == |old(value)|
        invariant forall k :: 0 <= k < i ==>
                    value[k] == PowMod(old(value)[k], coin.value, params.accumulatorModuli[k])
        invariant forall k :: i <= k < |value| ==> value[k] == old(value)[k]
      {
        value := value[i := PowMod(value[i], coin.value, params.accumulatorModuli[i])];
        i := i + 1;
      }
      assert value == RaiseLanes(old(value), coin.value, params.accumulatorModuli);
      res := Pass;
    }

    function GetDenomination(): (d: Denomination)
      reads this
      ensures d == denomination
    {
      denomination
    }

    function GetValue(): (v: seq<nat>)
      reads this
      ensures v == value
    {
      value
    }

    /** getValue(idx) reads the lane with vector::at, which throws past the last lane. */
    function GetValueAt(idx: nat): (r: Result<nat>)
      reads this
      ensures r.Ok? <==> idx < |value|
      ensures r.Ok? ==> r.value == value[idx]
      ensures r.Err? ==> r.error == IndexOutOfRange
    {
      if idx < |value| then Ok(value[idx]) else Err(IndexOutOfRange)
    }

    /** operator+=: the same as accumulate. */
    method AddCoin(c: PublicCoin, isValid: PublicCoin -> bool) returns (res: Outcome)
      requires Valid()
      modifies this
      ensures Valid() && |value| == |old(value)|
      ensures res == AccumulateGuard(denomination, old(value), c, isValid)
      ensures res.Fail? ==> value == old(value)
      ensures Accumulated(params.accumulatorModuli, denomination, old(value), c, isValid)
                == (if res.Pass? then Ok(value) else Err(res.error))
    {
      res := Accumulate(c, isValid);
    }

    /** operator==: lane-by-lane equality of the value sequences; the denomination is not compared. */
    predicate Equals(rhs: Accumulator)
      reads this, rhs
      ensures Equals(rhs) <==> |value| == |rhs.value| &&
                               forall i :: 0 <= i < |value| ==> value[i] == rhs.value[i]
    {
      value == rhs.value
    }
  }

  class AccumulatorWitness {
    const witnessAcc: Accumulator
    const element: PublicCoin

    ghost predicate Valid()
      reads this, witnessAcc
    {
      witnessAcc.Valid()
    }

    /** AccumulatorWitness(p, checkpoint, coin): an owned copy of the checkpoint and the excluded coin;
        nothing is checked. */
    constructor (checkpoint: Accumulator, coin: PublicCoin)
      ensures fresh(witnessAcc) && element == coin
      ensures witnessAcc.params == checkpoint.params && witnessAcc.denomination == checkpoint.denomination
      ensures witnessAcc.value == checkpoint.value
      ensures checkpoint.Valid() ==> Valid()
    {
      witnessAcc := new Accumulator.Copy(checkpoint);
      element := coin;
    }

    /** addElement(c): a silent no-op for the excluded coin, otherwise accumulate(c) on the witnessAcc
        with all of its failures. */
    method AddElement(c: PublicCoin, isValid: PublicCoin -> bool) returns (res: Outcome)
      requires Valid()
      modifies witnessAcc
      ensures Valid() && |witnessAcc.value| == |old(witnessAcc.value)|
      ensures c == element ==> res == Pass && witnessAcc.value == old(witnessAcc.value)
      ensures c != element ==> res == AccumulateGuard(witnessAcc.denomination, old(witnessAcc.value), c, isValid)
      ensures res.Fail? ==> witnessAcc.value == old(witnessAcc.value)
      ensures WitnessAdded(witnessAcc.params.accumulatorModuli, witnessAcc.denomination, old(witnessAcc.value),
                           element, c, isValid)
                == (if res.Pass? then Ok(witnessAcc.value) else Err(res.error))
    {
      if element != c {
        res := witnessAcc.AddCoin(c, isValid);
      } else {
        res := Pass;
      }
    }

    function GetValue(): (v: seq<nat>)
      reads this, witnessAcc
      ensures v == witnessAcc.value
    {
      witnessAcc.GetValue()
    }

    function GetValueAt(idx: nat): (r: Result<nat>)
      reads this, witnessAcc
      ensures r.Ok? <==> idx < |witnessAcc.value|
      ensures r.Ok? ==> r.value == witnessAcc.value[idx]
      ensures r.Err? ==> r.error == IndexOutOfRange
    {
      witnessAcc.GetValueAt(idx)
    }

    /** verifyWitness(a, publicCoin): folds the excluded coin into a temporary copy of the witnessAcc
        (throwing what accumulate throws), then requires both equal values and the same coin.
        The witness itself is left alone. */
    method VerifyWitness(a: Accumulator, publicCoin: PublicCoin, isValid: PublicCoin -> bool)
      returns (res: Result<bool>)
      requires Valid()
      ensures res == Verified(witnessAcc.params.accumulatorModuli, witnessAcc.denomination, witnessAcc.value,
                              element, a.value, publicCoin, isValid)
      ensures res.Ok? && publicCoin != element ==> !res.value
    {
      var temp := new Accumulator.Copy(witnessAcc);
      var folded := temp.AddCoin(element, isValid);
      if folded.Fail? {
        return Err(folded.error);
      }
      return Ok(temp.Equals(a) && element == publicCoin);
    }

    /** operator+=: the same as addElement. */
    method AddCoin(c: PublicCoin, isValid: PublicCoin -> bool) returns (res: Outcome)
      requires Valid()
      modifies witnessAcc
      ensures Valid() && |witnessAcc.value| == |old(witnessAcc.value)|
      ensures c == element ==> res == Pass && witnessAcc.value == old(witnessAcc.value)
      ensures c != element ==> res == AccumulateGuard(witnessAcc.denomination, old(witnessAcc.value), c, isValid)
      ensures res.Fail? ==> witnessAcc.value == old(witnessAcc.value)
      ensures WitnessAdded(witnessAcc.params.accumulatorModuli, witnessAcc.denomination, old(witnessAcc.value),
                           element, c, isValid)
                == (if res.Pass? then Ok(witnessAcc.value) else Err(res.error))
    {
      res := AddElement(c, isValid);
    }
  }
}
