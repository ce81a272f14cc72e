/**
 `FlowsResponse`, the northbound reply carrying a list of flows. Its
 payload may never be null, equality is by payload and same runtime class,
 and the hash code is `Objects.hash(payload)` in 32-bit arithmetic.
 */
module FlowsResponses {
  import opened JavaStrings

  /** A flow of the payload; `Flow.equals` is modelled as value equality. */
  datatype Flow = Flow(flowId: string, bandwidth: int, cookie: int)

  datatype FlowsResponse = FlowsResponse(payload: seq<Flow>)

  /** A response, or the `IllegalArgumentException` a null payload raises. */
  datatype Built = Made(response: FlowsResponse) | IllegalArgument

  /** `new FlowsResponse(payload)`; `payload` is `None` for a null list. */
  function Create(payload: Option<seq<Flow>>): (r: Built)
    ensures r.Made? <==> payload.Some?
    ensures r.Made? ==> GetPayload(r.response) == payload.value
  {
    match payload
    case None => IllegalArgument
    case Some(p) => Made(FlowsResponse(p))
  }

  function GetPayload(resp: FlowsResponse): seq<Flow> {
    resp.payload
  }

  /**
   `setPayload(payload)` on `resp`: the object after the call, and whether
   the call threw. A null argument throws before the field is written.
   */
  function SetPayload(resp: FlowsResponse, payload: Option<seq<Flow>>): (r: (FlowsResponse, bool))
    ensures r.1 <==> payload.None?
    ensures r.1 ==> r.0 == resp
    ensures !r.1 ==> GetPayload(r.0) == payload.value
  {
    match payload
    case None => (resp, true)
    case Some(p) => (resp.(payload := p), false)
  }

  /** Setting a payload and then setting the one read back restores the object. */
  lemma SetGetRoundTrip(resp: FlowsResponse, p: seq<Flow>)
    ensures SetPayload(SetPayload(resp, Some(p)).0, Some(GetPayload(resp))).0 == resp
  {
  }

  /** The argument of `equals(Object)`. A subclass instance has another runtime class. */
  datatype JObject = Null | Response(value: FlowsResponse) | OtherClass

  /** `equals(other)`: same class and equal payload lists (identity implies both). */
  function Equals(self: FlowsResponse, other: JObject): (r: bool)
    ensures r <==> other.Response? && GetPayload(other.value) == GetPayload(self)
  {
    match other
    case Null => false
    case OtherClass => false
    case Response(that) => GetPayload(self) == GetPayload(that)
  }

  /** `equals` is an equivalence relation on responses, and false for null. */
  lemma EqualsIsEquivalence(a: FlowsResponse, b: FlowsResponse, c: FlowsResponse)
    ensures Equals(a, Response(a))
    ensures Equals(a, Response(b)) ==> Equals(b, Response(a))
    ensures Equals(a, Response(b)) && Equals(b, Response(c)) ==> Equals(a, Response(c))
    ensures !Equals(a, Null)
  {
  }

  const Modulus: int := 0x1_0000_0000
  const HalfModulus: int := 0x8000_0000

  /** Java `int` arithmetic: the value of `x` wrapped to a signed 32-bit integer. */
  function Wrap32(x: int): (r: int)
    ensures -HalfModulus <= r < HalfModulus
    ensures (x - r) % Modulus == 0
    ensures (r - x) % Modulus == 0
  {
    (x + HalfModulus) % Modulus - HalfModulus
  }

  /** Two integers congruent modulo 2^32 wrap to the same `int`. */
  lemma WrapCongruent(x: int, k: int)
    ensures Wrap32(x + k * Modulus) == Wrap32(x)
  {
    assert (x + k * Modulus + HalfModulus) % Modulus == (x + HalfModulus) % Modulus by {
      LemmaModMultiple(x + HalfModulus, k);
    }
  }

  lemma LemmaModMultiple(a: int, k: int)
    ensures (a + k * Modulus) % Modulus == a % Modulus
  {
    var q := a / Modulus;
    var m := a % Modulus;
    assert a == q * Modulus + m;
    assert a + k * Modulus == (q + k) * Modulus + m;
  }

  /**
   `List.hashCode()` of the payload as Java computes it: starting from 1,
   each step multiplies by 31 and adds the element's hash, wrapping to
   32 bits. `elementHash` stands for `Flow.hashCode()`.
   */
  function ListHash(s: seq<Flow>, elementHash: Flow -> int): int
  {
    if |s| == 0 then 1
    else Wrap32(31 * ListHash(s[..|s| - 1], elementHash) + elementHash(s[|s| - 1]))
  }

  /** The same hash as an unbounded polynomial: 31^n plus each element's hash times 31^(n-1-i). */
  function Polynomial(s: seq<Flow>, elementHash: Flow -> int): int
  {
    if |s| == 0 then 1
    else 31 * Polynomial(s[..|s| - 1], elementHash) + elementHash(s[|s| - 1])
  }

  /** Wrapping at every step gives the polynomial reduced to 32 bits once. */
  lemma {:induction false} ListHashIsWrappedPolynomial(s: seq<Flow>, elementHash: Flow -> int)
    ensures |s| > 0 ==> ListHash(s, elementHash) == Wrap32(Polynomial(s, elementHash))
    ensures (ListHash(s, elementHash) - Polynomial(s, elementHash)) % Modulus == 0
    decreases |s|
  {
    if |s| > 0 {
      var front := s[..|s| - 1];
      ListHashIsWrappedPolynomial(front, elementHash);
      var h := ListHash(front, elementHash);
      var p := Polynomial(front, elementHash);
      var x := 31 * p + elementHash(s[|s| - 1]);
      var k := (h - p) / Modulus;
      assert h == p + k * Modulus;
      assert ListHash(s, elementHash) == Wrap32(x + (31 * k) * Modulus);
      WrapCongruent(x, 31 * k);
      assert Polynomial(s, elementHash) == x;
    }
  }

  /** `hashCode()`: `Objects.hash(payload)`, i.e. `31 * 1 + payload.hashCode()` in `int` arithmetic. */
  function HashCode(resp: FlowsResponse, elementHash: Flow -> int): (r: int)
    ensures -HalfModulus <= r < HalfModulus
    ensures (r - (31 + Polynomial(resp.payload, elementHash))) % Modulus == 0
  {
    var h := ListHash(resp.payload, elementHash);
    ListHashIsWrappedPolynomial(resp.payload, elementHash);
    var k := (h - Polynomial(resp.payload, elementHash)) / Modulus;
    WrapCongruent(31 + Polynomial(resp.payload, elementHash), k);
    Wrap32(31 + h)
  }

  /** Equal responses have equal hash codes, as the `Object` contract requires. */
  lemma EqualsImpliesSameHash(a: FlowsResponse, b: FlowsResponse, elementHash: Flow -> int)
    requires Equals(a, Response(b))
    ensures HashCode(a, elementHash) == HashCode(b, elementHash)
  {
  }

  /** An empty payload hashes to 31 * 1 + 1. */
  lemma EmptyPayloadHash(elementHash: Flow -> int)
    ensures HashCode(FlowsResponse([]), elementHash) == 32
  {
  }
}
