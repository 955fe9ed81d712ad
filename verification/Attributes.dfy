/** RADIUS attributes on the wire (section 5 of RFC 2865): a type octet, a length
    octet counting the whole attribute, then the value. */
module Attributes {
  import opened Wrappers

  type byte = x: int | 0 <= x < 256
  type Bytes = seq<byte>

  datatype Avp = Avp(typ: byte, value: Bytes)

  datatype TooLong = TooLong(typ: byte, length: nat)

  const MAX_VALUE := 253

  function NonEmpty(attrs: seq<Avp>): seq<Avp> {
    if attrs == [] then []
    else (if attrs[0].value == [] then [] else [attrs[0]]) + NonEmpty(attrs[1..])
  }

  predicate AllFit(attrs: seq<Avp>) {
    forall i :: 0 <= i < |attrs| ==> |attrs[i].value| <= MAX_VALUE
  }

  /** The wire form of one attribute; the length octet wraps as Go's byte() does. */
  function Wire(a: Avp): Bytes {
    [a.typ, (2 + |a.value|) % 256] + a.value
  }

  function Encode(attrs: seq<Avp>): Result<Bytes, TooLong> {
    if attrs == [] then Ok([])
    else if attrs[0].value == [] then Encode(attrs[1..])
    else if |attrs[0].value| > MAX_VALUE then Err(TooLong(attrs[0].typ, |attrs[0].value|))
    else match Encode(attrs[1..])
         case Ok(rest) => Ok(Wire(attrs[0]) + rest)
         case Err(e) => Err(e)
  }

  /** The attributes of the well-formed prefix of `b`. */
  function Walk(b: Bytes): seq<Avp> {
    if |b| < 2 || b[1] < 2 || b[1] > |b| then []
    else [Avp(b[0], b[2..b[1]])] + Walk(b[b[1]..])
  }

  /** What is left of `b` where the walk stops. */
  function Rest(b: Bytes): Bytes {
    if |b| < 2 || b[1] < 2 || b[1] > |b| then b else Rest(b[b[1]..])
  }

  function Refused(a: Avp): Result<Bytes, TooLong> {
    Err(TooLong(a.typ, |a.value|))
  }

  function Prepend(out: Bytes, r: Result<Bytes, TooLong>): Result<Bytes, TooLong> {
    match r
    case Ok(rest) => Ok(out + rest)
    case Err(e) => Err(e)
  }

  /** Encoding fails exactly when some value is longer than 253 bytes. */
  lemma {:induction false} EncodeFailsIff(attrs: seq<Avp>)
    ensures Encode(attrs).Ok? <==> AllFit(attrs)
    ensures Encode(attrs).Err? ==>
              exists i :: 0 <= i < |attrs| && AllFit(attrs[..i]) && |attrs[i].value| > MAX_VALUE
                          && Encode(attrs) == Refused(attrs[i])
  {
    if attrs != [] {
      EncodeFailsIff(attrs[1..]);
      assert attrs == [attrs[0]] + attrs[1..];
      if |attrs[0].value| > MAX_VALUE {
        assert AllFit(attrs[..0]);
      } else if Encode(attrs[1..]).Err? {
        var i :| 0 <= i < |attrs[1..]| && AllFit(attrs[1..][..i]) && |attrs[1..][i].value| > MAX_VALUE
          && Encode(attrs[1..]) == Refused(attrs[1..][i]);
        assert attrs[..i + 1] == [attrs[0]] + attrs[1..][..i];
        assert AllFit(attrs[..i + 1]) && attrs[i + 1] == attrs[1..][i];
      }
    }
  }

  /** On the wire an attribute is its type, its whole length and its value. */
  lemma OneAttribute(a: Avp)
    requires 1 <= |a.value| <= 253
    ensures Encode([a]) == Ok([a.typ, 2 + |a.value|] + a.value)
  {
    assert Wire(a) + [] == [a.typ, 2 + |a.value|] + a.value;
  }

  lemma WalkOne(a: Avp, rest: Bytes)
    requires |a.value| <= MAX_VALUE
    ensures Walk(Wire(a) + rest) == [a] + Walk(rest) && Rest(Wire(a) + rest) == Rest(rest)
  {
    var b := Wire(a) + rest;
    assert b[0] == a.typ && b[1] == 2 + |a.value|;
    assert b[2..b[1]] == a.value;
    assert b[b[1]..] == rest;
  }

  /** Walking what was encoded gives back exactly the non-empty attributes, in order,
      with nothing left over. */
  lemma {:induction false} WalkUndoesEncode(attrs: seq<Avp>)
    requires AllFit(attrs)
    ensures Encode(attrs).Ok?
    ensures Walk(Encode(attrs).value) == NonEmpty(attrs) && Rest(Encode(attrs).value) == []
  {
    if attrs != [] {
      assert attrs == [attrs[0]] + attrs[1..];
      WalkUndoesEncode(attrs[1..]);
      if attrs[0].value != [] {
        WalkOne(attrs[0], Encode(attrs[1..]).value);
      } else {
        assert NonEmpty(attrs) == NonEmpty(attrs[1..]);
      }
    }
  }

  predicate NoneEmpty(attrs: seq<Avp>) {
    forall i :: 0 <= i < |attrs| ==> attrs[i].value != []
  }

  /** Conversely, encoding what a complete walk found gives back the very bytes. */
  lemma {:induction false} EncodeUndoesWalk(b: Bytes)
    requires Rest(b) == [] && NoneEmpty(Walk(b))
    ensures Encode(Walk(b)) == Ok(b)
    decreases |b|
  {
    if |b| >= 2 && b[1] >= 2 && b[1] <= |b| {
      var l := b[1];
      var first, tail := Avp(b[0], b[2..l]), Walk(b[l..]);
      assert Walk(b) == [first] + tail;
      assert Walk(b)[0] == first && Walk(b)[1..] == tail;
      assert forall i :: 0 <= i < |tail| ==> tail[i] == Walk(b)[i + 1];
      EncodeUndoesWalk(b[l..]);
      assert Wire(first) + b[l..] == b;
    }
  }

  function WireLength(attrs: seq<Avp>): nat {
    if attrs == [] then 0 else 2 + |attrs[0].value| + WireLength(attrs[1..])
  }

  /** On arbitrary bytes the walk accounts for every byte before the point where it stops. */
  lemma {:induction false} WalkStaysInBounds(b: Bytes)
    ensures WireLength(Walk(b)) + |Rest(b)| == |b|
    ensures AllFit(Walk(b))
    decreases |b|
  {
    if |b| >= 2 && b[1] >= 2 && b[1] <= |b| {
      WalkStaysInBounds(b[b[1]..]);
      assert Walk(b)[1..] == Walk(b[b[1]..]);
    }
  }

  lemma {:induction false} WalkAppend(a: Bytes, b: Bytes)
    requires Rest(a) == []
    ensures Walk(a + b) == Walk(a) + Walk(b) && Rest(a + b) == Rest(b)
    decreases |a|
  {
    if a == [] {
      assert a + b == b;
    } else {
      var l := a[1];
      assert (a + b)[l..] == a[l..] + b;
      assert (a + b)[2..l] == a[2..l];
      WalkAppend(a[l..], b);
    }
  }

  lemma EncodeOneMore(out: Bytes, attrs: seq<Avp>, i: nat)
    requires i < |attrs| && attrs[i].value != [] && |attrs[i].value| <= MAX_VALUE
    ensures Prepend(out, Encode(attrs[i..])) == Prepend(out + Wire(attrs[i]), Encode(attrs[i + 1..]))
  {
    assert attrs[i..][1..] == attrs[i + 1..];
    if Encode(attrs[i + 1..]).Ok? {
      var rest := Encode(attrs[i + 1..]).value;
      assert out + (Wire(attrs[i]) + rest) == out + Wire(attrs[i]) + rest;
    }
  }

  /** The encoder's loop. */
  method EncodeAttrs(attrs: seq<Avp>) returns (r: Result<Bytes, TooLong>)
    ensures r == Encode(attrs)
    ensures r.Ok? <==> AllFit(attrs)
    ensures r.Ok? ==> Walk(r.value) == NonEmpty(attrs) && Rest(r.value) == []
  {
    var out: Bytes := [];
    var i := 0;
    EncodeFailsIff(attrs);
    assert attrs[0..] == attrs && (Encode(attrs).Ok? ==> [] + Encode(attrs).value == Encode(attrs).value);
    while i < |attrs|
      invariant 0 <= i <= |attrs|
      invariant Encode(attrs) == Prepend(out, Encode(attrs[i..]))
    {
      var a := attrs[i];
      if |a.value| == 0 {
        assert attrs[i..][1..] == attrs[i + 1..];
        i := i + 1;
        continue;
      }
      if |a.value| > MAX_VALUE {
        return Err(TooLong(a.typ, |a.value|));
      }
      EncodeOneMore(out, attrs, i);
      out := out + ([a.typ, (2 + |a.value|) % 256] + a.value);
      i := i + 1;
    }
    WalkUndoesEncode(attrs);
    r := Ok(out);
    assert out + [] == out;
  }

  // ----- looking attributes up

  /** The value of the last attribute of this type that passes `wanted`. */
  function LastOf(attrs: seq<Avp>, typ: byte, wanted: Bytes -> bool): Option<Bytes> {
    if attrs == [] then None
    else
      var a := attrs[|attrs| - 1];
      if a.typ == typ && wanted(a.value) then Some(a.value) else LastOf(attrs[..|attrs| - 1], typ, wanted)
  }

  /** The values of all attributes of this type, in order. */
  function ValuesOf(attrs: seq<Avp>, typ: byte): seq<Bytes> {
    if attrs == [] then []
    else (if attrs[0].typ == typ then [attrs[0].value] else []) + ValuesOf(attrs[1..], typ)
  }

  lemma {:induction false} ValuesAppend(a: seq<Avp>, b: seq<Avp>, typ: byte)
    ensures ValuesOf(a + b, typ) == ValuesOf(a, typ) + ValuesOf(b, typ)
  {
    if a == [] {
      assert a + b == b;
    } else {
      assert (a + b)[1..] == a[1..] + b;
      ValuesAppend(a[1..], b, typ);
    }
  }

  /** Where the first attribute of this type starts. */
  function FirstAt(b: Bytes, typ: byte): Option<nat> {
    if |b| < 2 || b[1] < 2 || b[1] > |b| then None
    else if b[0] == typ then Some(0)
    else match FirstAt(b[b[1]..], typ)
         case Some(n) => Some(b[1] + n)
         case None => None
  }

  predicate NoneOfType(attrs: seq<Avp>, typ: byte) {
    forall i :: 0 <= i < |attrs| ==> attrs[i].typ != typ
  }

  lemma NoneOfTypeHead(a: Avp, rest: seq<Avp>, typ: byte)
    ensures NoneOfType([a] + rest, typ) <==> a.typ != typ && NoneOfType(rest, typ)
  {
    if NoneOfType([a] + rest, typ) {
      assert ([a] + rest)[0] == a;
      forall i | 0 <= i < |rest| ensures rest[i].typ != typ {
        assert ([a] + rest)[i + 1] == rest[i];
      }
    }
  }

  lemma {:induction false} FirstAfter(a: Bytes, b: Bytes, typ: byte)
    requires Rest(a) == [] && NoneOfType(Walk(a), typ)
    ensures FirstAt(a + b, typ) == match FirstAt(b, typ) case Some(n) => Some(|a| + n) case None => None
    decreases |a|
  {
    if a == [] {
      assert a + b == b;
    } else {
      var l := a[1];
      var tail := a[l..];
      assert (a + b)[l..] == tail + b;
      NoneOfTypeHead(Avp(a[0], a[2..l]), Walk(tail), typ);
      FirstAfter(tail, b, typ);
    }
  }
}
