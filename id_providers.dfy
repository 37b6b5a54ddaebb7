/** Identifier provisioning: a provider whose one unsigned 32-bit counter
    hands out both request identifiers and progress tokens. */
module IdProviders {
  import opened Model

  /** The two operations of a provider (traits RequestIdProvider and
      ProgressTokenProvider). */
  datatype Call = RequestIdCall | ProgressTokenCall

  /** What one call hands back to its caller. */
  datatype Issued = RequestIssued(id: RequestId) | TokenIssued(token: ProgressToken)

  /** The integer-or-string identifier inside what a call handed back. */
  function IdentifierOf(x: Issued): NumberOrString {
    match x
    case RequestIssued(id) => id
    case TokenIssued(ProgressToken(v)) => v
  }

  /** The operation that handed back x. */
  function CallOf(x: Issued): Call {
    if x.RequestIssued? then RequestIdCall else ProgressTokenCall
  }

  /** What a call of kind `call` hands back when the counter read v before it. */
  function Emit(v: U32, call: Call): (x: Issued)
    ensures IdentifierOf(x) == Number(v) && CallOf(x) == call
  {
    match call
    case RequestIdCall => RequestIssued(Number(v))
    case ProgressTokenCall => TokenIssued(ProgressToken(Number(v)))
  }

  /** The counter after n calls that each fetch_add(1), starting from start. */
  function Advance(start: U32, n: nat): (v: U32)
    ensures start + n <= U32_MAX ==> v == start + n
  {
    if n == 0 then start else WrappingAdd(Advance(start, n - 1), 1)
  }

  /** What a provider whose counter reads start hands back, in order, for the
      calls in `calls`, whatever their kinds. */
  function IssuedBy(start: U32, calls: seq<Call>): (out: seq<Issued>)
    ensures |out| == |calls|
  {
    if calls == [] then []
    else
      var n := |calls| - 1;
      IssuedBy(start, calls[..n]) + [Emit(Advance(start, n), calls[n])]
  }

  /** AtomicU32Provider, with its atomic counter read sequentially. The ghost
      fields record every call made so far and what it handed back. */
  class AtomicU32Provider {
    var id: U32
    ghost var calls: seq<Call>
    ghost var issued: seq<Issued>

    /** Since it was defaulted, the provider has handed back exactly what
        IssuedBy says, and the counter has advanced once per call. */
    ghost predicate Valid()
      reads this
    {
      issued == IssuedBy(0, calls) && id == Advance(0, |calls|)
    }

    /** Default: the counter starts at 0. */
    constructor ()
      ensures Valid()
      ensures id == 0 && calls == [] && issued == []
    {
      id := 0;
      calls := [];
      issued := [];
    }

    /** AtomicU32::fetch_add: returns the counter's old value and adds delta
        to it, wrapping on overflow. */
    method FetchAdd(delta: U32) returns (prev: U32)
      modifies this`id
      ensures prev == old(id)
      ensures id == WrappingAdd(old(id), delta)
    {
      prev := id;
      id := WrappingAdd(id, delta);
    }

    /** next_request_id: the counter's value before the call, as a Number. */
    method NextRequestId() returns (r: RequestId)
      requires Valid()
      modifies this
      ensures Valid()
      ensures r == Number(old(id))
      ensures id == WrappingAdd(old(id), 1)
      ensures calls == old(calls) + [RequestIdCall]
      ensures issued == old(issued) + [RequestIssued(r)]
    {
      var n := FetchAdd(1);
      r := Number(n);
      calls := calls + [RequestIdCall];
      issued := issued + [RequestIssued(r)];
    }

    /** next_progress_token: the counter's value before the call, as a
        Number inside a ProgressToken. */
    method NextProgressToken() returns (t: ProgressToken)
      requires Valid()
      modifies this
      ensures Valid()
      ensures t == ProgressToken(Number(old(id)))
      ensures id == WrappingAdd(old(id), 1)
      ensures calls == old(calls) + [ProgressTokenCall]
      ensures issued == old(issued) + [TokenIssued(t)]
    {
      var n := FetchAdd(1);
      t := ProgressToken(Number(n));
      calls := calls + [ProgressTokenCall];
      issued := issued + [TokenIssued(t)];
    }
  }

  /** The counter after n calls is start + n reduced modulo 2^32. */
  lemma {:induction false} AdvanceIsModular(start: U32, n: nat)
    ensures Advance(start, n) == (start + n) % U32_MODULUS
  {
    if n > 0 {
      AdvanceIsModular(start, n - 1);
      var x := start + n - 1;
      var q := x / U32_MODULUS;
      assert x == q * U32_MODULUS + x % U32_MODULUS;
      if x % U32_MODULUS == U32_MAX {
        assert start + n == (q + 1) * U32_MODULUS;
      } else {
        assert start + n == q * U32_MODULUS + (x % U32_MODULUS + 1);
      }
    }
  }

  /** The i-th call (counting from 0) hands back the counter's value after
      i calls, in the wrapper of its own kind. */
  lemma {:induction false} IssuedByAt(start: U32, calls: seq<Call>, i: nat)
    requires i < |calls|
    ensures IssuedBy(start, calls)[i] == Emit(Advance(start, i), calls[i])
  {
    var n := |calls| - 1;
    if i < n {
      IssuedByAt(start, calls[..n], i);
    }
  }

  /** Two counts reach the same value modulo 2^32 exactly when they differ by
      a multiple of 2^32. */
  lemma SameResidueIff(a: nat, b: nat)
    requires a <= b
    ensures a % U32_MODULUS == b % U32_MODULUS <==> (b - a) % U32_MODULUS == 0
  {
    var d := b - a;
    var qa, ra := a / U32_MODULUS, a % U32_MODULUS;
    var qb, rb := b / U32_MODULUS, b % U32_MODULUS;
    var qd, rd := d / U32_MODULUS, d % U32_MODULUS;
    assert a == qa * U32_MODULUS + ra;
    assert b == qb * U32_MODULUS + rb;
    assert d == qd * U32_MODULUS + rd;
    assert b == (qa + qd) * U32_MODULUS + (ra + rd);
  }

  /** A freshly defaulted provider's first call, of either kind, hands back
      Number(0). */
  lemma FirstIdentifierIsZero(calls: seq<Call>)
    requires |calls| > 0
    ensures IdentifierOf(IssuedBy(0, calls)[0]) == Number(0)
  {
    IssuedByAt(0, calls, 0);
  }

  /** Every call hands back a Number, never a Str, in the wrapper of the
      operation that was called. */
  lemma IssuedByOnlyNumbers(start: U32, calls: seq<Call>)
    ensures forall i :: 0 <= i < |calls| ==>
      IdentifierOf(IssuedBy(start, calls)[i]).Number? &&
      CallOf(IssuedBy(start, calls)[i]) == calls[i]
  {
    forall i | 0 <= i < |calls|
      ensures IdentifierOf(IssuedBy(start, calls)[i]).Number?
      ensures CallOf(IssuedBy(start, calls)[i]) == calls[i]
    {
      IssuedByAt(start, calls, i);
    }
  }

  /** Both kinds draw from one counter: whatever the kinds of two successive
      calls, the second hands back the first's number plus one, modulo 2^32. */
  lemma IssuedByConsecutive(start: U32, calls: seq<Call>, i: nat)
    requires i + 1 < |calls|
    ensures IdentifierOf(IssuedBy(start, calls)[i]).Number?
    ensures IdentifierOf(IssuedBy(start, calls)[i + 1]) ==
      Number(WrappingAdd(IdentifierOf(IssuedBy(start, calls)[i]).n, 1))
  {
    IssuedByAt(start, calls, i);
    IssuedByAt(start, calls, i + 1);
  }

  /** After the call that hands back 4294967295 the next call hands back 0. */
  lemma IssuedByWrapsAround(start: U32, calls: seq<Call>, i: nat)
    requires i + 1 < |calls|
    requires IdentifierOf(IssuedBy(start, calls)[i]) == Number(U32_MAX)
    ensures IdentifierOf(IssuedBy(start, calls)[i + 1]) == Number(0)
  {
    IssuedByConsecutive(start, calls, i);
  }

  /** Two calls hand back the same number exactly when a multiple of 2^32
      calls separate them: any fewer than 2^32 successive calls hand back
      pairwise distinct numbers, and 2^32 calls later a number recurs. */
  lemma IssuedBySameNumberIff(start: U32, calls: seq<Call>, i: nat, j: nat)
    requires i <= j < |calls|
    ensures IdentifierOf(IssuedBy(start, calls)[i]) == IdentifierOf(IssuedBy(start, calls)[j])
      <==> (j - i) % U32_MODULUS == 0
  {
    IssuedByAt(start, calls, i);
    IssuedByAt(start, calls, j);
    AdvanceIsModular(start, i);
    AdvanceIsModular(start, j);
    SameResidueIff(start + i, start + j);
  }

  /** At most 2^32 calls hand back pairwise distinct numbers. */
  lemma IssuedByDistinct(start: U32, calls: seq<Call>)
    requires |calls| <= U32_MODULUS
    ensures forall i, j :: 0 <= i < j < |calls| ==>
      IdentifierOf(IssuedBy(start, calls)[i]) != IdentifierOf(IssuedBy(start, calls)[j])
  {
    forall i, j | 0 <= i < j < |calls|
      ensures IdentifierOf(IssuedBy(start, calls)[i]) != IdentifierOf(IssuedBy(start, calls)[j])
    {
      IssuedBySameNumberIff(start, calls, i, j);
    }
  }

  /** Within one wrap cycle a request identifier and a progress token never
      carry the same number. */
  lemma RequestIdAndTokenNeverCollide(start: U32, calls: seq<Call>, i: nat, j: nat)
    requires |calls| <= U32_MODULUS && i < |calls| && j < |calls|
    requires calls[i] == RequestIdCall && calls[j] == ProgressTokenCall
    ensures IdentifierOf(IssuedBy(start, calls)[i]) != IdentifierOf(IssuedBy(start, calls)[j])
  {
    if i < j {
      IssuedBySameNumberIff(start, calls, i, j);
    } else {
      IssuedBySameNumberIff(start, calls, j, i);
    }
  }

  /** What a provider has handed back since it was defaulted: at most 2^32
      answers are pairwise distinct. */
  lemma ProviderAnswersDistinct(p: AtomicU32Provider)
    requires p.Valid() && |p.calls| <= U32_MODULUS
    ensures forall i, j :: 0 <= i < j < |p.issued| ==>
      IdentifierOf(p.issued[i]) != IdentifierOf(p.issued[j])
  {
    IssuedByDistinct(0, p.calls);
  }

  /** A defaulted provider answers a request-identifier call and then a
      progress-token call with the consecutive numbers 0 and 1. */
  method DefaultProviderFirstCalls() returns (r: RequestId, t: ProgressToken)
    ensures r == Number(0) && t == ProgressToken(Number(1))
  {
    var p := new AtomicU32Provider();
    r := p.NextRequestId();
    t := p.NextProgressToken();
  }
}
