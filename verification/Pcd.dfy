/**
 Point cloud files (bridge/src/pcd.rs): the LZF decompressor, and the two binary layouts of a table of
 fields. Bytes are numbers below 256; `ctrl >> 5` and `ctrl & 31` are division by 32 and its remainder.
 */
module Lzf {
  import opened Outcomes

  type byte = b: nat | b < 256

  /** A literal run of 1 to 32 bytes, or a copy of 3 to 264 bytes from 1 to 8192 bytes back. */
  datatype Token = Literal(bytes: seq<byte>) | Back(length: nat, distance: nat)

  predicate IsToken(t: Token) {
    match t
    case Literal(bytes) => 1 <= |bytes| <= 32
    case Back(length, distance) => 3 <= length <= 264 && 1 <= distance <= 8192
  }

  function Encode(t: Token): (r: seq<byte>)
    requires IsToken(t)
    ensures |r| >= 2
  {
    match t
    case Literal(bytes) => [|bytes| - 1] + bytes
    case Back(length, distance) =>
      var d := distance - 1;
      if length < 9 then [(length - 2) * 32 + d / 256, d % 256]
      else [224 + d / 256, length - 9, d % 256]
  }

  function EncodeAll(ts: seq<Token>): seq<byte>
    requires forall t <- ts :: IsToken(t)
  {
    if ts == [] then [] else Encode(ts[0]) + EncodeAll(ts[1..])
  }

  /** `length` bytes copied one after the other, so that a copy may run into itself. */
  function CopyBack(out: seq<byte>, distance: nat, length: nat): (r: seq<byte>)
    requires 1 <= distance <= |out|
    ensures |r| == |out| + length && out <= r
    ensures forall k | |out| <= k < |r| :: r[k] == r[k - distance]
    decreases length
  {
    if length == 0 then out else CopyBack(out + [out[|out| - distance]], distance, length - 1)
  }

  /** What the tokens stand for after `out`; a copy from before the first byte stands for nothing. */
  function Expand(ts: seq<Token>, out: seq<byte>): Option<seq<byte>>
    decreases |ts|
  {
    if ts == [] then Some(out)
    else
      match ts[0]
      case Literal(bytes) => Expand(ts[1..], out + bytes)
      case Back(length, distance) =>
        if 1 <= distance <= |out| then Expand(ts[1..], CopyBack(out, distance, length)) else None
  }

  datatype Error = Corrupt | WrongLength(actual: nat)

  /** How far back a copy reaches: five bits of its first byte above its last byte. */
  function Distance(ctrl: nat, low: nat): (d: nat)
    ensures d >= 1
  {
    ctrl % 32 * 256 + low + 1
  }

  /** The token at the head of `input`, and how many bytes it takes up. */
  function First(input: seq<byte>): (r: Option<(Token, nat)>)
    requires input != []
    ensures r.Some? ==> IsToken(r.value.0) && 0 < r.value.1 <= |input| && Encode(r.value.0) == input[..r.value.1]
  {
    var ctrl: nat := input[0];
    if ctrl < 32 then
      if |input| < ctrl + 2 then None
      else
        assert [ctrl] + input[1..ctrl + 2] == input[..ctrl + 2];
        Some((Literal(input[1..ctrl + 2]), ctrl + 2))
    else if ctrl < 224 then
      if |input| < 2 then None
      else
        BackBytes(ctrl, input[1]);
        Some((Back(ctrl / 32 + 2, Distance(ctrl, input[1])), 2))
    else
      if |input| < 3 then None
      else
        var length: nat := input[1];
        BackBytes(ctrl, input[2]);
        Some((Back(length + 9, Distance(ctrl, input[2])), 3))
  }

  lemma BackBytes(ctrl: byte, low: byte)
    ensures (ctrl % 32 * 256 + low) / 256 == ctrl % 32 && (ctrl % 32 * 256 + low) % 256 == low
    ensures ctrl == ctrl / 32 * 32 + ctrl % 32
  {}

  /** The decoding of the rest of the input onto `out`. */
  function Decode(input: seq<byte>, out: seq<byte>): Option<seq<byte>>
    decreases |input|
  {
    if input == [] then Some(out)
    else
      match First(input)
      case None => None
      case Some((t, n)) =>
        match t
        case Literal(bytes) => Decode(input[n..], out + bytes)
        case Back(length, distance) =>
          if distance > |out| then None else Decode(input[n..], CopyBack(out, distance, length))
  }

  /** The decoding of what stands at `i` and behind, onto `out`. */
  ghost function DecodeFrom(input: seq<byte>, i: nat, out: seq<byte>): Option<seq<byte>>
    requires i <= |input|
  {
    Decode(input[i..], out)
  }

  lemma LiteralFirst(input: seq<byte>, i: nat)
    requires i < |input| && input[i] < 32
    ensures var end := i + input[i] + 2;
            First(input[i..]) == if end > |input| then None else Some((Literal(input[i + 1..end]), end - i))
  {
    var rest, end := input[i..], i + input[i] + 2;
    if end <= |input| { assert rest[1..rest[0] + 2] == input[i + 1..end]; }
  }

  lemma Later(input: seq<byte>, i: nat, n: nat)
    requires i + n <= |input|
    ensures input[i..][n..] == input[i + n..]
  {}

  lemma LiteralStep(input: seq<byte>, i: nat, out: seq<byte>)
    requires i < |input| && input[i] < 32
    ensures var end := i + input[i] + 2;
            DecodeFrom(input, i, out) == if end > |input| then None else DecodeFrom(input, end, out + input[i + 1..end])
  {
    LiteralFirst(input, i);
    hide First, Encode, IsToken;
    if i + input[i] + 2 <= |input| { Later(input, i, input[i] + 2); }
  }

  ghost function AfterBack(input: seq<byte>, out: seq<byte>, back: nat, length: nat, next: nat): Option<seq<byte>>
    requires 1 <= back && next <= |input|
  {
    if back > |out| then None else DecodeFrom(input, next, CopyBack(out, back, length))
  }

  lemma ShortStep(input: seq<byte>, i: nat, out: seq<byte>)
    requires i < |input| && 32 <= input[i] < 224
    ensures DecodeFrom(input, i, out) ==
            if i + 1 >= |input| then None
            else AfterBack(input, out, Distance(input[i], input[i + 1]), input[i] / 32 + 2, i + 2)
  {
    ShortFirst(input, i);
    hide First, Encode, IsToken, Distance;
    if i + 1 < |input| { Later(input, i, 2); }
  }

  lemma ShortFirst(input: seq<byte>, i: nat)
    requires i < |input| && 32 <= input[i] < 224
    ensures First(input[i..]) ==
            if i + 1 >= |input| then None else Some((Back(input[i] / 32 + 2, Distance(input[i], input[i + 1])), 2))
  {
    if i + 1 < |input| { assert input[i..][1] == input[i + 1]; }
  }

  lemma LongStep(input: seq<byte>, i: nat, out: seq<byte>)
    requires i < |input| && input[i] >= 224
    ensures DecodeFrom(input, i, out) ==
            if i + 2 >= |input| then None
            else AfterBack(input, out, Distance(input[i], input[i + 2]), (input[i + 1] as nat) + 9, i + 3)
  {
    LongFirst(input, i);
    hide First, Encode, IsToken, Distance;
    if i + 2 < |input| { Later(input, i, 3); }
  }

  lemma LongFirst(input: seq<byte>, i: nat)
    requires i < |input| && input[i] >= 224
    ensures First(input[i..]) ==
            if i + 2 >= |input| then None
            else Some((Back((input[i + 1] as nat) + 9, Distance(input[i], input[i + 2])), 3))
  {
    if i + 2 < |input| { assert input[i..][1] == input[i + 1] && input[i..][2] == input[i + 2]; }
  }

  method CopyInto(before: seq<byte>, back: nat, len: nat) returns (out: seq<byte>)
    requires 1 <= back <= |before|
    ensures out == CopyBack(before, back, len)
  {
    out := before;
    var start := |out| - back;
    for k := 0 to len
      invariant |out| == |before| + k
      invariant CopyBack(before, back, len) == CopyBack(out, back, len - k)
    {
      var v := out[start + k];
      out := out + [v];
    }
  }

  /** Copies the literal run at `i` and gives the place behind it, unless it is cut short. */
  method LiteralRun(input: seq<byte>, i: nat, out: seq<byte>) returns (ok: bool, next: nat, out': seq<byte>)
    requires i < |input| && input[i] < 32
    ensures !ok ==> DecodeFrom(input, i, out) == None
    ensures ok ==> i < next <= |input| && DecodeFrom(input, i, out) == DecodeFrom(input, next, out')
  {
    hide DecodeFrom;
    LiteralStep(input, i, out);
    var len: nat := input[i] + 1;
    next := i + 1;
    ok := next + len <= |input|;
    out' := out;
    if ok {
      out' := out + input[next..next + len];
      next := next + len;
    }
  }

  /** Reads the length of the back reference at `i`, which may take a second byte. */
  method BackLength(input: seq<byte>, i: nat) returns (len: nat, next: nat)
    requires i < |input| && input[i] >= 32
    ensures input[i] < 224 ==> len == input[i] / 32 && next == i + 1
    ensures input[i] >= 224 && i + 1 < |input| ==> len == 7 + (input[i + 1] as nat) && next == i + 2
    ensures input[i] >= 224 && i + 1 >= |input| ==> next == |input|
  {
    len, next := input[i] / 32, i + 1;
    assert len == 7 <==> input[i] >= 224;
    if len == 7 && next < |input| {
      len := len + input[next];
      next := next + 1;
    }
  }

  /** Carries out the back reference at `i` and gives the place behind it, unless it is cut short or too far back. */
  method BackReference(input: seq<byte>, i: nat, out: seq<byte>) returns (ok: bool, after: nat, out': seq<byte>)
    requires i < |input| && input[i] >= 32
    ensures !ok ==> DecodeFrom(input, i, out) == None
    ensures ok ==> i < after <= |input| && DecodeFrom(input, i, out) == DecodeFrom(input, after, out')
  {
    hide DecodeFrom, Distance, CopyBack;
    if input[i] < 224 { ShortStep(input, i, out); } else { LongStep(input, i, out); }
    ok, after, out' := false, i, out;
    var len, next := BackLength(input, i);
    if next < |input| {
      var back := Distance(input[i], input[next]);
      if back <= |out| {
        ok, after := true, next + 1;
        out' := CopyInto(out, back, len + 2);
      }
    }
  }

  /**
   Decompression by the token loop, which copies back references byte by byte; no read is out of range, whatever
   the input.
   */
  method LzfDecompress(input: seq<byte>, outLen: nat) returns (r: Result<seq<byte>, Error>)
    ensures match Decode(input, [])
            case None => r == Err(Corrupt)
            case Some(out) => r == if |out| == outLen then Ok(out) else Err(WrongLength(|out|))
  {
    var out: seq<byte> := [];
    var i: nat := 0;
    assert input[0..] == input;
    while i < |input|
      invariant i <= |input| && Decode(input, []) == DecodeFrom(input, i, out)
    {
      hide DecodeFrom;
      var ok: bool;
      if input[i] < 32 {
        ok, i, out := LiteralRun(input, i, out);
      } else {
        ok, i, out := BackReference(input, i, out);
      }
      if !ok {
        return Err(Corrupt);
      }
    }
    assert input[i..] == [];
    if |out| != outLen {
      return Err(WrongLength(|out|));
    }
    return Ok(out);
  }

  // ---------------------------------------------------------------- against the token encoding

  lemma DistanceRoundTrip(a: nat, distance: nat)
    requires 1 <= distance <= 8192
    ensures var d := distance - 1;
            d / 256 < 32 && (a * 32 + d / 256) / 32 == a && Distance(a * 32 + d / 256, d % 256) == distance
  {
    var q, low := (distance - 1) / 256, (distance - 1) % 256;
    assert distance - 1 == q * 256 + low;
    assert (a * 32 + q) % 32 == q && (a * 32 + q) / 32 == a;
  }

  lemma FirstOfLiteral(bytes: seq<byte>, rest: seq<byte>)
    requires IsToken(Literal(bytes))
    ensures var e := Encode(Literal(bytes)); First(e + rest) == Some((Literal(bytes), |e|))
  {
    var input := Encode(Literal(bytes)) + rest;
    assert input[1..input[0] + 2] == bytes;
  }

  /** A back reference is read from its bytes, whatever follows. */
  lemma FirstOfBack(length: nat, distance: nat, input: seq<byte>)
    requires IsToken(Back(length, distance)) && Encode(Back(length, distance)) <= input
    ensures First(input) == Some((Back(length, distance), |Encode(Back(length, distance))|))
  {
    var e := Encode(Back(length, distance));
    assert input[0] == e[0] && input[1] == e[1];
    assert length >= 9 ==> input[2] == e[2];
    DistanceRoundTrip(if length < 9 then length - 2 else 7, distance);
    hide Distance;
  }

  lemma FirstOfEncoding(t: Token, rest: seq<byte>)
    requires IsToken(t)
    ensures First(Encode(t) + rest) == Some((t, |Encode(t)|))
  {
    hide First, Encode, IsToken;
    match t
    case Literal(bytes) => FirstOfLiteral(bytes, rest);
    case Back(length, distance) => FirstOfBack(length, distance, Encode(t) + rest);
  }

  /** Decoding what a list of tokens encodes to gives their byte-by-byte expansion. */
  lemma {:induction false} DecodeInvertsEncode(ts: seq<Token>, out: seq<byte>)
    requires forall t <- ts :: IsToken(t)
    ensures Decode(EncodeAll(ts), out) == Expand(ts, out)
    decreases |ts|
  {
    if ts != [] {
      var t := ts[0];
      var rest := EncodeAll(ts[1..]);
      var input := Encode(t) + rest;
      FirstOfEncoding(t, rest);
      assert input[|Encode(t)|..] == rest;
      match t
      case Literal(bytes) => DecodeInvertsEncode(ts[1..], out + bytes);
      case Back(length, distance) =>
        if distance <= |out| { DecodeInvertsEncode(ts[1..], CopyBack(out, distance, length)); }
    }
  }

  /** And nothing else decodes: input that does is the encoding of a list of tokens with that expansion. */
  lemma {:induction false} DecodedIsEncoding(input: seq<byte>, out: seq<byte>) returns (ts: seq<Token>)
    requires Decode(input, out).Some?
    ensures forall t <- ts :: IsToken(t)
    ensures EncodeAll(ts) == input && Expand(ts, out) == Decode(input, out)
    decreases |input|
  {
    if input == [] {
      ts := [];
    } else {
      var (t, n) := First(input).value;
      var out' := match t
        case Literal(bytes) => out + bytes
        case Back(length, distance) => CopyBack(out, distance, length);
      var rest := DecodedIsEncoding(input[n..], out');
      ts := [t] + rest;
      assert ts[1..] == rest;
      assert input == input[..n] + input[n..];
    }
  }
}

/** The bodies of binary point clouds: point after point, or field after field. */
module PcdBody {
  import opened Outcomes
  import opened Division
  import opened Lzf

  datatype Field = Field(name: string, size: nat, kind: char, count: nat) {
    function Bytes(): nat { size * count }
  }

  /** Which fields make up a cloud. */
  datatype Roles = Roles(x: nat, y: nat, z: nat, intensity: Option<nat>, normals: Option<(nat, nat, nat)>,
                         rgb: Option<nat>)

  datatype Cloud<V> = Cloud(xyz: seq<V>, intensity: seq<V>, normals: seq<V>, rgb: seq<byte>)

  predicate RolesOk(fields: seq<Field>, r: Roles) {
    && r.x < |fields| && r.y < |fields| && r.z < |fields|
    && (r.intensity.Some? ==> r.intensity.value < |fields|)
    && (r.normals.Some? ==>
          r.normals.value.0 < |fields| && r.normals.value.1 < |fields| && r.normals.value.2 < |fields|)
    && (r.rgb.Some? ==> r.rgb.value < |fields|)
  }

  /** The field `f` goes into the cloud. */
  predicate IsRole(r: Roles, f: nat) {
    || f == r.x || f == r.y || f == r.z || r.intensity == Some(f) || r.rgb == Some(f)
    || (r.normals.Some? && (f == r.normals.value.0 || f == r.normals.value.1 || f == r.normals.value.2))
  }

  /** What is read of a field, its first component, is there. */
  predicate Sized(f: Field) {
    f.count >= 1 || f.size == 0
  }

  ghost predicate RolesSized(fields: seq<Field>, r: Roles) {
    forall f: nat | f < |fields| && IsRole(r, f) :: Sized(fields[f])
  }

  // ---------------------------------------------------------------- where a value lies

  /** Bytes taken up by the first `f` fields of one point. */
  function Start(fields: seq<Field>, f: nat): nat
    requires f <= |fields|
  {
    if f == 0 then 0 else Start(fields, f - 1) + fields[f - 1].Bytes()
  }

  function Offset(fields: seq<Field>, n: nat, soa: bool, f: nat, i: nat): nat
    requires f < |fields|
  {
    if soa then n * Start(fields, f) + i * fields[f].Bytes()
    else i * Start(fields, |fields|) + Start(fields, f)
  }

  lemma {:induction false} StartMonotone(fields: seq<Field>, f: nat, g: nat)
    requires f <= g <= |fields|
    ensures Start(fields, f) <= Start(fields, g)
    decreases g
  {
    if f < g { StartMonotone(fields, f, g - 1); }
  }

  /** The value of field `f` of point `i` lies inside a buffer of this length. */
  predicate Reaches(fields: seq<Field>, n: nat, soa: bool, f: nat, i: nat, len: nat)
    requires f < |fields|
  {
    Offset(fields, n, soa, f, i) + fields[f].size <= len
  }

  lemma FirstComponent(f: Field)
    ensures f.size <= f.Bytes() <==> Sized(f)
  {
    if f.count >= 1 { Scaled(1, f.count, f.size); }
  }

  lemma InBoundsArithmetic(n: nat, i: nat, start: nat, bytes: nat, size: nat, step: nat)
    requires i < n && size <= bytes && start + bytes <= step
    ensures n * start + i * bytes + size <= n * step
    ensures i * step + start + size <= n * step
  {
    Scaled(i + 1, n, bytes);
    assert i * bytes + bytes == (i + 1) * bytes;
    Scaled(start + bytes, step, n);
    assert n * start + n * bytes == (start + bytes) * n;
    Scaled(i + 1, n, step);
    assert i * step + step == (i + 1) * step;
  }

  /** A value of a table that fits the buffer lies inside it. */
  lemma InBounds(fields: seq<Field>, n: nat, soa: bool, f: nat, i: nat, len: nat)
    requires f < |fields| && i < n && Sized(fields[f]) && n * Start(fields, |fields|) <= len
    ensures Reaches(fields, n, soa, f, i, len)
  {
    FirstComponent(fields[f]);
    StartMonotone(fields, f + 1, |fields|);
    InBoundsArithmetic(n, i, Start(fields, f), fields[f].Bytes(), fields[f].size, Start(fields, |fields|));
  }

  lemma OffsetGrows(fields: seq<Field>, n: nat, soa: bool, f: nat, i: nat, j: nat)
    requires f < |fields| && i <= j
    ensures Offset(fields, n, soa, f, i) <= Offset(fields, n, soa, f, j)
  {
    Scaled(i, j, fields[f].Bytes());
    Scaled(i, j, Start(fields, |fields|));
  }

  function At(fields: seq<Field>, n: nat, soa: bool, buffer: seq<byte>, f: nat, i: nat): seq<byte>
    requires f < |fields| && Reaches(fields, n, soa, f, i, |buffer|)
  {
    var off := Offset(fields, n, soa, f, i);
    buffer[off..off + fields[f].size]
  }

  // ---------------------------------------------------------------- reading a body

  /** The colour bytes of a packed little-endian value, red first. */
  function Rgb(bytes: seq<byte>): seq<byte> {
    if |bytes| >= 4 then [bytes[2], bytes[1], bytes[0]] else [0, 0, 0]
  }

  lemma Unpacks(b0: byte, b1: byte, b2: byte, b3: byte)
    ensures var packed: nat := b0 + 256 * b1 + 65536 * b2 + 16777216 * b3;
            packed % 256 == b0 && packed / 256 % 256 == b1 && packed / 65536 % 256 == b2
  {
    var packed: nat := b0 + 256 * b1 + 65536 * b2 + 16777216 * b3;
    assert packed == b0 + 256 * (b1 + 256 * (b2 + 256 * b3));
    assert packed / 256 == b1 + 256 * (b2 + 256 * b3);
    assert packed / 65536 == b2 + 256 * b3;
  }

  method UnpackRgb(bytes: seq<byte>, out: seq<byte>) returns (r: seq<byte>)
    ensures r == out + Rgb(bytes)
  {
    var packed: nat := 0;
    if |bytes| >= 4 {
      var b0: nat, b1: nat, b2: nat, b3: nat := bytes[0], bytes[1], bytes[2], bytes[3];
      packed := b0 + 256 * b1 + 65536 * b2 + 16777216 * b3;
      Unpacks(b0, b1, b2, b3);
    }
    r := out + [packed / 65536 % 256];
    r := r + [packed / 256 % 256];
    r := r + [packed % 256];
  }

  /** The number in four little-endian bytes; 0 when there are fewer. */
  function Packed(bytes: seq<byte>): nat {
    if |bytes| < 4 then 0
    else bytes[0] as nat + 256 * bytes[1] as nat + 65536 * bytes[2] as nat + 16777216 * bytes[3] as nat
  }

  /** The colour packed as 0xAARRGGBB, whatever the highest byte, comes out red first. */
  lemma PackedColour(red: byte, green: byte, blue: byte, high: byte, bytes: seq<byte>)
    requires Packed(bytes) == 16777216 * high as nat + 65536 * red as nat + 256 * green as nat + blue as nat
    ensures Rgb(bytes) == [red, green, blue]
  {
    if |bytes| >= 4 {
      Unpacks(bytes[0], bytes[1], bytes[2], bytes[3]);
      Unpacks(blue, green, red, high);
    }
  }

  /** A cloud with one more point, whose field values `cell` gives. */
  function WithPoint<V>(c: Cloud<V>, fields: seq<Field>, roles: Roles, cell: (nat, nat) -> seq<byte>, i: nat,
                        scalar: (seq<byte>, char) -> V): Cloud<V>
    requires RolesOk(fields, roles)
  {
    Cloud(c.xyz + [scalar(cell(roles.x, i), fields[roles.x].kind),
                   scalar(cell(roles.y, i), fields[roles.y].kind),
                   scalar(cell(roles.z, i), fields[roles.z].kind)],
          c.intensity + (match roles.intensity
                         case None => []
                         case Some(f) => [scalar(cell(f, i), fields[f].kind)]),
          c.normals + (match roles.normals
                       case None => []
                       case Some((f, g, h)) => [scalar(cell(f, i), fields[f].kind), scalar(cell(g, i), fields[g].kind),
                                                scalar(cell(h, i), fields[h].kind)]),
          c.rgb + (match roles.rgb
                   case None => []
                   case Some(f) => Rgb(cell(f, i))))
  }

  /** The cloud of the first `m` points of a table. */
  function CloudOf<V>(fields: seq<Field>, roles: Roles, m: nat, cell: (nat, nat) -> seq<byte>,
                      scalar: (seq<byte>, char) -> V): Cloud<V>
    requires RolesOk(fields, roles)
  {
    if m == 0 then Cloud([], [], [], [])
    else WithPoint(CloudOf(fields, roles, m - 1, cell, scalar), fields, roles, cell, m - 1, scalar)
  }

  /** What channel `f` of point `i` holds, if the cloud has that channel: one number for each point. */
  ghost predicate Channel<V>(vs: seq<V>, m: nat, fields: seq<Field>, role: Option<nat>, cell: (nat, nat) -> seq<byte>,
                             scalar: (seq<byte>, char) -> V)
    requires role.Some? ==> role.value < |fields|
  {
    match role
    case None => vs == []
    case Some(f) => |vs| == m && forall i: nat | i < m :: vs[i] == scalar(cell(f, i), fields[f].kind)
  }

  /** Three numbers for each point, one from each of three fields. */
  ghost predicate Triples<V>(vs: seq<V>, m: nat, fields: seq<Field>, f: nat, g: nat, h: nat,
                             cell: (nat, nat) -> seq<byte>, scalar: (seq<byte>, char) -> V)
    requires f < |fields| && g < |fields| && h < |fields|
  {
    && |vs| == 3 * m
    && forall i: nat | i < m ::
         && vs[3 * i] == scalar(cell(f, i), fields[f].kind)
         && vs[3 * i + 1] == scalar(cell(g, i), fields[g].kind)
         && vs[3 * i + 2] == scalar(cell(h, i), fields[h].kind)
  }

  /** Three bytes for each point. */
  ghost predicate Colours(bytes: seq<byte>, m: nat, role: Option<nat>, cell: (nat, nat) -> seq<byte>) {
    match role
    case None => bytes == []
    case Some(f) => |bytes| == 3 * m && forall i: nat | i < m :: bytes[3 * i..3 * i + 3] == Rgb(cell(f, i))
  }

  lemma TriplesGrow<V>(vs: seq<V>, m: nat, fields: seq<Field>, f: nat, g: nat, h: nat, cell: (nat, nat) -> seq<byte>,
                       scalar: (seq<byte>, char) -> V)
    requires f < |fields| && g < |fields| && h < |fields| && Triples(vs, m, fields, f, g, h, cell, scalar)
    ensures Triples(vs + [scalar(cell(f, m), fields[f].kind), scalar(cell(g, m), fields[g].kind),
                          scalar(cell(h, m), fields[h].kind)], m + 1, fields, f, g, h, cell, scalar)
  {}

  lemma ColoursGrow(bytes: seq<byte>, m: nat, f: nat, cell: (nat, nat) -> seq<byte>)
    requires Colours(bytes, m, Some(f), cell)
    ensures Colours(bytes + Rgb(cell(f, m)), m + 1, Some(f), cell)
  {
    var more := bytes + Rgb(cell(f, m));
    hide Rgb;
    assert |Rgb(cell(f, m))| == 3 by { RgbIsThree(cell(f, m)); }
    forall i: nat | i < m + 1
      ensures more[3 * i..3 * i + 3] == Rgb(cell(f, i))
    {
      if i < m { assert more[3 * i..3 * i + 3] == bytes[3 * i..3 * i + 3]; }
    }
  }

  lemma RgbIsThree(bytes: seq<byte>)
    ensures |Rgb(bytes)| == 3
  {}

  lemma {:induction false} PlacesHold<V>(fields: seq<Field>, roles: Roles, m: nat, cell: (nat, nat) -> seq<byte>,
                                            scalar: (seq<byte>, char) -> V)
    requires RolesOk(fields, roles)
    ensures Triples(CloudOf(fields, roles, m, cell, scalar).xyz, m, fields, roles.x, roles.y, roles.z, cell, scalar)
  {
    hide Rgb;
    if m > 0 {
      PlacesHold(fields, roles, m - 1, cell, scalar);
      var b := CloudOf(fields, roles, m - 1, cell, scalar);
      TriplesGrow(b.xyz, m - 1, fields, roles.x, roles.y, roles.z, cell, scalar);
      hide Triples;
    }
  }

  lemma {:induction false} IntensityHolds<V>(fields: seq<Field>, roles: Roles, m: nat, cell: (nat, nat) -> seq<byte>,
                                            scalar: (seq<byte>, char) -> V)
    requires RolesOk(fields, roles)
    ensures Channel(CloudOf(fields, roles, m, cell, scalar).intensity, m, fields, roles.intensity, cell, scalar)
  {
    hide Rgb;
    if m > 0 {
      IntensityHolds(fields, roles, m - 1, cell, scalar);
      var b := CloudOf(fields, roles, m - 1, cell, scalar);
      assert b.intensity <= CloudOf(fields, roles, m, cell, scalar).intensity;
    }
  }

  lemma {:induction false} NormalsHold<V>(fields: seq<Field>, roles: Roles, m: nat, cell: (nat, nat) -> seq<byte>,
                                            scalar: (seq<byte>, char) -> V)
    requires RolesOk(fields, roles)
    ensures match roles.normals
            case None => CloudOf(fields, roles, m, cell, scalar).normals == []
            case Some((f, g, h)) =>
               Triples(CloudOf(fields, roles, m, cell, scalar).normals, m, fields, f, g, h, cell, scalar)
  {
    hide Rgb;
    if m > 0 {
      NormalsHold(fields, roles, m - 1, cell, scalar);
      var b := CloudOf(fields, roles, m - 1, cell, scalar);
      if roles.normals.Some? {
        var (f, g, h) := roles.normals.value;
        TriplesGrow(b.normals, m - 1, fields, f, g, h, cell, scalar);
      }
      hide Triples;
    }
  }

  lemma ColoursStep<V>(fields: seq<Field>, roles: Roles, m: nat, cell: (nat, nat) -> seq<byte>,
                       scalar: (seq<byte>, char) -> V)
    requires RolesOk(fields, roles) && m > 0
    ensures CloudOf(fields, roles, m, cell, scalar).rgb ==
            CloudOf(fields, roles, m - 1, cell, scalar).rgb
            + if roles.rgb.Some? then Rgb(cell(roles.rgb.value, m - 1)) else []
  {
    hide Rgb, RolesOk;
  }

  lemma ColoursNext(b: seq<byte>, c: seq<byte>, m: nat, role: Option<nat>, cell: (nat, nat) -> seq<byte>)
    requires Colours(b, m, role, cell) && c == b + if role.Some? then Rgb(cell(role.value, m)) else []
    ensures Colours(c, m + 1, role, cell)
  {
    if role.Some? {
      ColoursGrow(b, m, role.value, cell);
      hide Colours;
    }
  }

  lemma {:induction false} ColoursHold<V>(fields: seq<Field>, roles: Roles, m: nat, cell: (nat, nat) -> seq<byte>,
                                          scalar: (seq<byte>, char) -> V)
    requires RolesOk(fields, roles)
    ensures Colours(CloudOf(fields, roles, m, cell, scalar).rgb, m, roles.rgb, cell)
  {
    hide Rgb, WithPoint;
    if m == 0 {
    } else {
      hide Colours;
      ColoursHold(fields, roles, m - 1, cell, scalar);
      ColoursStep(fields, roles, m, cell, scalar);
      ColoursNext(CloudOf(fields, roles, m - 1, cell, scalar).rgb, CloudOf(fields, roles, m, cell, scalar).rgb, m - 1,
                  roles.rgb, cell);
    }
  }

  /** Where in the cloud each value of the table has gone. */
  lemma CloudHolds<V>(fields: seq<Field>, roles: Roles, m: nat, cell: (nat, nat) -> seq<byte>,
                      scalar: (seq<byte>, char) -> V)
    requires RolesOk(fields, roles)
    ensures var c := CloudOf(fields, roles, m, cell, scalar);
            && Triples(c.xyz, m, fields, roles.x, roles.y, roles.z, cell, scalar)
            && Channel(c.intensity, m, fields, roles.intensity, cell, scalar)
            && (match roles.normals
                case None => c.normals == []
                case Some((f, g, h)) => Triples(c.normals, m, fields, f, g, h, cell, scalar))
            && Colours(c.rgb, m, roles.rgb, cell)
  {
    PlacesHold(fields, roles, m, cell, scalar);
    IntensityHolds(fields, roles, m, cell, scalar);
    NormalsHold(fields, roles, m, cell, scalar);
    ColoursHold(fields, roles, m, cell, scalar);
    hide CloudOf, Triples, Channel, Colours;
  }

  ghost function CellOf(fields: seq<Field>, n: nat, soa: bool, buffer: seq<byte>): (nat, nat) -> seq<byte> {
    (f: nat, i: nat) =>
      if f < |fields| && Reaches(fields, n, soa, f, i, |buffer|) then At(fields, n, soa, buffer, f, i) else []
  }

  /** Every value of point `i` that goes into the cloud lies inside the buffer. */
  predicate PointReaches(fields: seq<Field>, roles: Roles, n: nat, soa: bool, i: nat, len: nat)
    requires RolesOk(fields, roles)
  {
    forall f | 0 <= f < |fields| && IsRole(roles, f) :: Reaches(fields, n, soa, f, i, len)
  }

  ghost predicate TableReaches(fields: seq<Field>, roles: Roles, n: nat, soa: bool, len: nat)
    requires RolesOk(fields, roles)
  {
    forall i | 0 <= i < n :: PointReaches(fields, roles, n, soa, i, len)
  }

  /** No value lies outside the buffer exactly when none of the last point does; none does if each has a component. */
  lemma LastPointDecides(fields: seq<Field>, roles: Roles, n: nat, soa: bool, len: nat)
    requires RolesOk(fields, roles)
    ensures TableReaches(fields, roles, n, soa, len) <==> n == 0 || PointReaches(fields, roles, n, soa, n - 1, len)
    ensures RolesSized(fields, roles) && n * Start(fields, |fields|) <= len ==> TableReaches(fields, roles, n, soa, len)
  {
    hide Offset, Start;
    forall i, f | 0 <= i < n && 0 <= f < |fields| && IsRole(roles, f)
      ensures Reaches(fields, n, soa, f, n - 1, len) ==> Reaches(fields, n, soa, f, i, len)
      ensures Sized(fields[f]) && n * Start(fields, |fields|) <= len ==> Reaches(fields, n, soa, f, i, len)
    {
      OffsetGrows(fields, n, soa, f, i, n - 1);
      if Sized(fields[f]) && n * Start(fields, |fields|) <= len { InBounds(fields, n, soa, f, i, len); }
    }
  }

  /** A value outside the buffer is a slice out of range, which ends the program. */
  datatype Error = TooShort(actual: nat, needed: nat) | OutOfRange

  lemma Commutes(a: nat, b: nat)
    ensures a * b == b * a
  {}

  method ParseBody<V>(fields: seq<Field>, roles: Roles, n: nat, soa: bool, buffer: seq<byte>,
                      scalar: (seq<byte>, char) -> V)
    returns (r: Result<Cloud<V>, Error>)
    requires RolesOk(fields, roles)
    ensures var needed := n * Start(fields, |fields|);
            match r
            case Err(TooShort(actual, bytes)) => actual == |buffer| < needed == bytes
            case Err(OutOfRange) => |buffer| >= needed && !TableReaches(fields, roles, n, soa, |buffer|)
            case Ok(cloud) => && |buffer| >= needed && TableReaches(fields, roles, n, soa, |buffer|)
                              && cloud == CloudOf(fields, roles, n, CellOf(fields, n, soa, buffer), scalar)
  {
    var step := Start(fields, |fields|);
    Commutes(step, n);
    hide Start, CellOf, TableReaches, CloudOf;
    if |buffer| < step * n {
      r := Err(TooShort(|buffer|, step * n));
    } else {
      var cloud := ReadPoints(fields, roles, n, soa, buffer, scalar);
      r := if cloud.Some? then Ok(cloud.value) else Err(OutOfRange);
    }
  }

  /** The points one after the other, up to one with a value outside the buffer. */
  method ReadPoints<V>(fields: seq<Field>, roles: Roles, n: nat, soa: bool, buffer: seq<byte>,
                       scalar: (seq<byte>, char) -> V)
    returns (r: Option<Cloud<V>>)
    requires RolesOk(fields, roles)
    ensures r.Some? <==> TableReaches(fields, roles, n, soa, |buffer|)
    ensures r.Some? ==> r.value == CloudOf(fields, roles, n, CellOf(fields, n, soa, buffer), scalar)
  {
    hide Start, CellOf, WithPoint, PointReaches;
    var cloud := Cloud([], [], [], []);
    var i := 0;
    while i < n && PointReaches(fields, roles, n, soa, i, |buffer|)
      invariant i <= n && cloud == CloudOf(fields, roles, i, CellOf(fields, n, soa, buffer), scalar)
      invariant forall k | 0 <= k < i :: PointReaches(fields, roles, n, soa, k, |buffer|)
    {
      cloud := ReadPoint(cloud, fields, roles, n, soa, buffer, i, scalar);
      i := i + 1;
    }
    r := if i == n then Some(cloud) else None;
  }

  lemma RolesReach(fields: seq<Field>, roles: Roles, n: nat, soa: bool, i: nat, len: nat)
    requires RolesOk(fields, roles) && PointReaches(fields, roles, n, soa, i, len)
    ensures Reaches(fields, n, soa, roles.x, i, len) && Reaches(fields, n, soa, roles.y, i, len)
    ensures Reaches(fields, n, soa, roles.z, i, len)
    ensures roles.intensity.Some? ==> Reaches(fields, n, soa, roles.intensity.value, i, len)
    ensures roles.normals.Some? ==> var (f, g, h) := roles.normals.value;
                                    && Reaches(fields, n, soa, f, i, len) && Reaches(fields, n, soa, g, i, len)
                                    && Reaches(fields, n, soa, h, i, len)
    ensures roles.rgb.Some? ==> Reaches(fields, n, soa, roles.rgb.value, i, len)
  {
    hide Reaches;
  }

  method ReadPoint<V>(before: Cloud<V>, fields: seq<Field>, roles: Roles, n: nat, soa: bool, buffer: seq<byte>, i: nat,
                      scalar: (seq<byte>, char) -> V)
    returns (c: Cloud<V>)
    requires RolesOk(fields, roles) && PointReaches(fields, roles, n, soa, i, |buffer|)
    ensures c == WithPoint(before, fields, roles, CellOf(fields, n, soa, buffer), i, scalar)
  {
    RolesReach(fields, roles, n, soa, i, |buffer|);
    hide Reaches, PointReaches;
    ghost var cell := CellOf(fields, n, soa, buffer);
    var x, y, z := At(fields, n, soa, buffer, roles.x, i), At(fields, n, soa, buffer, roles.y, i),
                   At(fields, n, soa, buffer, roles.z, i);
    assert x == cell(roles.x, i) && y == cell(roles.y, i) && z == cell(roles.z, i);
    c := before.(xyz := before.xyz + [scalar(x, fields[roles.x].kind), scalar(y, fields[roles.y].kind),
                                      scalar(z, fields[roles.z].kind)]);
    if roles.intensity.Some? {
      var f := roles.intensity.value;
      var v := At(fields, n, soa, buffer, f, i);
      assert v == cell(f, i);
      c := c.(intensity := c.intensity + [scalar(v, fields[f].kind)]);
    }
    if roles.normals.Some? {
      var (f, g, h) := roles.normals.value;
      var u, v, w := At(fields, n, soa, buffer, f, i), At(fields, n, soa, buffer, g, i),
                     At(fields, n, soa, buffer, h, i);
      assert u == cell(f, i) && v == cell(g, i) && w == cell(h, i);
      c := c.(normals := c.normals + [scalar(u, fields[f].kind), scalar(v, fields[g].kind), scalar(w, fields[h].kind)]);
    }
    if roles.rgb.Some? {
      var f := roles.rgb.value;
      var v := At(fields, n, soa, buffer, f, i);
      assert v == cell(f, i);
      var rgb := UnpackRgb(v, c.rgb);
      c := c.(rgb := rgb);
    }
  }

  // ---------------------------------------------------------------- the two layouts of one table

  /** `t[f][i]` is the bytes of field `f` of point `i`. */
  ghost predicate IsTable(fields: seq<Field>, n: nat, t: seq<seq<seq<byte>>>) {
    && |t| == |fields|
    && (forall f | 0 <= f < |t| :: |t[f]| == n && forall i | 0 <= i < n :: |t[f][i]| == fields[f].Bytes())
  }

  function Flat(parts: seq<seq<byte>>): seq<byte> {
    if parts == [] then [] else Flat(parts[..|parts| - 1]) + parts[|parts| - 1]
  }

  ghost predicate LiesAt(s: seq<byte>, off: nat, part: seq<byte>) {
    off + |part| <= |s| && s[off..off + |part|] == part
  }

  /** A part of a concatenation lies behind the parts before it. */
  lemma {:induction false} FlatPart(parts: seq<seq<byte>>, k: nat)
    requires k < |parts|
    ensures LiesAt(Flat(parts), |Flat(parts[..k])|, parts[k])
  {
    var front := parts[..|parts| - 1];
    if k < |parts| - 1 {
      FlatPart(front, k);
      assert front[..k] == parts[..k];
      var at := |Flat(parts[..k])|;
      assert Flat(parts)[at..at + |parts[k]|] == Flat(front)[at..at + |parts[k]|];
    }
  }

  lemma {:induction false} FlatUniform(parts: seq<seq<byte>>, size: nat)
    requires forall k | 0 <= k < |parts| :: |parts[k]| == size
    ensures |Flat(parts)| == |parts| * size
  {
    if parts != [] {
      FlatUniform(parts[..|parts| - 1], size);
      assert (|parts| - 1) * size + size == |parts| * size;
    }
  }

  /** One point, its fields in order. */
  function Row(t: seq<seq<seq<byte>>>, i: nat): seq<seq<byte>>
    requires forall f | 0 <= f < |t| :: i < |t[f]|
  {
    seq(|t|, f requires 0 <= f < |t| => t[f][i])
  }

  function Rows(t: seq<seq<seq<byte>>>, n: nat): seq<seq<byte>>
    requires forall f | 0 <= f < |t| :: |t[f]| == n
  {
    seq(n, i requires 0 <= i < n => Flat(Row(t, i)))
  }

  function Columns(t: seq<seq<seq<byte>>>): seq<seq<byte>> {
    seq(|t|, f requires 0 <= f < |t| => Flat(t[f]))
  }

  function PointByPoint(t: seq<seq<seq<byte>>>, n: nat): seq<byte>
    requires forall f | 0 <= f < |t| :: |t[f]| == n
  {
    Flat(Rows(t, n))
  }

  function FieldByField(t: seq<seq<seq<byte>>>): seq<byte> {
    Flat(Columns(t))
  }

  lemma {:induction false} RowStart(fields: seq<Field>, row: seq<seq<byte>>, f: nat)
    requires |row| == |fields| && f <= |fields| && forall k | 0 <= k < |row| :: |row[k]| == fields[k].Bytes()
    ensures |Flat(row[..f])| == Start(fields, f)
  {
    if f > 0 {
      RowStart(fields, row, f - 1);
      assert row[..f][..f - 1] == row[..f - 1];
    }
  }

  lemma SumTimes(n: nat, a: nat, b: nat)
    ensures n * a + n * b == n * (a + b)
  {}

  lemma {:induction false} ColumnStart(fields: seq<Field>, n: nat, columns: seq<seq<byte>>, f: nat)
    requires |columns| == |fields| && f <= |fields|
    requires forall k | 0 <= k < |columns| :: |columns[k]| == n * fields[k].Bytes()
    ensures |Flat(columns[..f])| == n * Start(fields, f)
  {
    if f > 0 {
      ColumnStart(fields, n, columns, f - 1);
      assert columns[..f][..f - 1] == columns[..f - 1];
      SumTimes(n, Start(fields, f - 1), fields[f - 1].Bytes());
    }
  }

  lemma LiesInside(s: seq<byte>, a: nat, part: seq<byte>, b: nat, inner: seq<byte>)
    requires LiesAt(s, a, part) && LiesAt(part, b, inner)
    ensures LiesAt(s, a + b, inner)
  {
    var x := s[a + b..a + b + |inner|];
    forall k | 0 <= k < |inner|
      ensures x[k] == inner[k]
    {
      assert part[b..b + |inner|][k] == part[b + k] == s[a..a + |part|][b + k];
    }
  }

  /** A part of a part of a concatenation. */
  lemma PartOfPart(outer: seq<seq<byte>>, i: nat, inner: seq<seq<byte>>, f: nat, before: nat, within: nat)
    requires i < |outer| && outer[i] == Flat(inner) && f < |inner|
    requires before == |Flat(outer[..i])| && within == |Flat(inner[..f])|
    ensures LiesAt(Flat(outer), before + within, inner[f])
  {
    FlatPart(outer, i);
    FlatPart(inner, f);
    LiesInside(Flat(outer), before, outer[i], within, inner[f]);
  }

  lemma RowsLength(fields: seq<Field>, n: nat, t: seq<seq<seq<byte>>>, i: nat)
    requires IsTable(fields, n, t) && i <= n
    ensures |Flat(Rows(t, n)[..i])| == i * Start(fields, |fields|)
  {
    var rows := Rows(t, n);
    forall k | 0 <= k < n
      ensures |rows[k]| == Start(fields, |fields|)
    {
      RowStart(fields, Row(t, k), |fields|);
      assert Row(t, k)[..|fields|] == Row(t, k);
    }
    FlatUniform(rows[..i], Start(fields, |fields|));
  }

  lemma ColumnsLength(fields: seq<Field>, n: nat, t: seq<seq<seq<byte>>>, f: nat)
    requires IsTable(fields, n, t) && f <= |fields|
    ensures |Flat(Columns(t)[..f])| == n * Start(fields, f)
  {
    var columns := Columns(t);
    forall k | 0 <= k < |columns|
      ensures |columns[k]| == n * fields[k].Bytes()
    {
      FlatUniform(t[k], fields[k].Bytes());
    }
    ColumnStart(fields, n, columns, f);
  }

  lemma CellPointByPoint(fields: seq<Field>, n: nat, t: seq<seq<seq<byte>>>, f: nat, i: nat)
    requires IsTable(fields, n, t) && f < |fields| && i < n
    ensures |PointByPoint(t, n)| == n * Start(fields, |fields|)
    ensures LiesAt(PointByPoint(t, n), Offset(fields, n, false, f, i), t[f][i])
  {
    hide LiesAt, Start, Flat;
    RowsLength(fields, n, t, n);
    assert Rows(t, n)[..n] == Rows(t, n);
    RowsLength(fields, n, t, i);
    RowStart(fields, Row(t, i), f);
    PartOfPart(Rows(t, n), i, Row(t, i), f, i * Start(fields, |fields|), Start(fields, f));
  }

  lemma CellFieldByField(fields: seq<Field>, n: nat, t: seq<seq<seq<byte>>>, f: nat, i: nat)
    requires IsTable(fields, n, t) && f < |fields| && i < n
    ensures |FieldByField(t)| == n * Start(fields, |fields|)
    ensures LiesAt(FieldByField(t), Offset(fields, n, true, f, i), t[f][i])
  {
    hide LiesAt, Start, Flat;
    ColumnsLength(fields, n, t, |fields|);
    assert Columns(t)[..|fields|] == Columns(t);
    ColumnsLength(fields, n, t, f);
    FlatUniform(t[f][..i], fields[f].Bytes());
    PartOfPart(Columns(t), f, t[f], i, n * Start(fields, f), i * fields[f].Bytes());
  }

  lemma HeadLiesAt(s: seq<byte>, off: nat, part: seq<byte>, size: nat)
    requires LiesAt(s, off, part) && size <= |part|
    ensures off + size <= |s| && s[off..off + size] == part[..size]
  {
    LiesInside(s, off, part, 0, part[..size]);
  }

  lemma ReadPointByPoint(fields: seq<Field>, n: nat, t: seq<seq<seq<byte>>>, f: nat, i: nat)
    requires IsTable(fields, n, t) && f < |fields| && i < n && Sized(fields[f])
    ensures Reaches(fields, n, false, f, i, |PointByPoint(t, n)|) && fields[f].size <= |t[f][i]|
    ensures At(fields, n, false, PointByPoint(t, n), f, i) == t[f][i][..fields[f].size]
  {
    FirstComponent(fields[f]);
    CellPointByPoint(fields, n, t, f, i);
    HeadLiesAt(PointByPoint(t, n), Offset(fields, n, false, f, i), t[f][i], fields[f].size);
  }

  lemma ReadFieldByField(fields: seq<Field>, n: nat, t: seq<seq<seq<byte>>>, f: nat, i: nat)
    requires IsTable(fields, n, t) && f < |fields| && i < n && Sized(fields[f])
    ensures Reaches(fields, n, true, f, i, |FieldByField(t)|) && fields[f].size <= |t[f][i]|
    ensures At(fields, n, true, FieldByField(t), f, i) == t[f][i][..fields[f].size]
  {
    FirstComponent(fields[f]);
    CellFieldByField(fields, n, t, f, i);
    HeadLiesAt(FieldByField(t), Offset(fields, n, true, f, i), t[f][i], fields[f].size);
  }

  /** Both ways of writing a table out have room for this value, and reading it back finds the same bytes. */
  ghost predicate Agrees(fields: seq<Field>, n: nat, t: seq<seq<seq<byte>>>, f: nat, i: nat)
    requires IsTable(fields, n, t) && f < |fields| && i < n
  {
    && Reaches(fields, n, false, f, i, |PointByPoint(t, n)|) && Reaches(fields, n, true, f, i, |FieldByField(t)|)
    && At(fields, n, false, PointByPoint(t, n), f, i) == At(fields, n, true, FieldByField(t), f, i)
  }

  /** Either way of writing a table out, reading it back finds the first component of every value. */
  lemma LayoutsAgree(fields: seq<Field>, n: nat, t: seq<seq<seq<byte>>>, f: nat, i: nat)
    requires IsTable(fields, n, t) && f < |fields| && i < n && Sized(fields[f])
    ensures Agrees(fields, n, t, f, i) && fields[f].size <= |t[f][i]|
    ensures At(fields, n, false, PointByPoint(t, n), f, i) == t[f][i][..fields[f].size]
  {
    ReadPointByPoint(fields, n, t, f, i);
    ReadFieldByField(fields, n, t, f, i);
  }

  /** The first field from `f` on that takes up bytes. */
  lemma {:induction false} NextWithBytes(fields: seq<Field>, f: nat) returns (g: nat)
    requires f < |fields| && Start(fields, |fields|) > Start(fields, f)
    ensures f <= g < |fields| && Start(fields, g) == Start(fields, f) && fields[g].Bytes() > 0
    decreases |fields| - f
  {
    g := f;
    if fields[f].Bytes() == 0 { g := NextWithBytes(fields, f + 1); }
  }

  /** Two points, every byte of the first 0 and of the second 1. */
  function TwoPoints(fields: seq<Field>): (t: seq<seq<seq<byte>>>)
    ensures IsTable(fields, 2, t)
  {
    seq(|fields|, f requires 0 <= f < |fields| =>
      [seq(fields[f].Bytes(), _ => 0 as byte), seq(fields[f].Bytes(), _ => 1 as byte)])
  }

  /** A field without a component is read from its neighbours, or from beyond the end. */
  lemma UnsizedDisagrees(fields: seq<Field>, f: nat)
    requires f < |fields| && !Sized(fields[f])
    ensures !Agrees(fields, 2, TwoPoints(fields), f, 1)
  {
    var t := TwoPoints(fields);
    var a, b := PointByPoint(t, 2), FieldByField(t);
    CellPointByPoint(fields, 2, t, f, 1);
    CellFieldByField(fields, 2, t, f, 1);
    assert fields[f].Bytes() == 0;
    StartMonotone(fields, f, |fields|);
    if Start(fields, |fields|) > Start(fields, f) {
      var g := NextWithBytes(fields, f);
      CellPointByPoint(fields, 2, t, g, 1);
      CellFieldByField(fields, 2, t, g, 0);
      HeadByte(a, Offset(fields, 2, false, g, 1), t[g][1]);
      HeadByte(b, Offset(fields, 2, true, g, 0), t[g][0]);
      assert Offset(fields, 2, false, f, 1) == Offset(fields, 2, false, g, 1);
      assert Offset(fields, 2, true, f, 1) == Offset(fields, 2, true, g, 0);
      if Reaches(fields, 2, false, f, 1, |a|) && Reaches(fields, 2, true, f, 1, |b|) {
        assert At(fields, 2, false, a, f, 1)[0] == 1 && At(fields, 2, true, b, f, 1)[0] == 0;
      }
    }
  }

  lemma HeadByte(s: seq<byte>, off: nat, part: seq<byte>)
    requires LiesAt(s, off, part) && part != []
    ensures off < |s| && s[off] == part[0]
  {
    assert s[off..off + |part|][0] == s[off];
  }

  /** The two layouts agree on a field in every table exactly when the header gives it a component. */
  lemma LayoutsAgreeIffSized(fields: seq<Field>, f: nat)
    requires f < |fields|
    ensures (forall n: nat, t, i: nat | IsTable(fields, n, t) && i < n :: Agrees(fields, n, t, f, i))
            <==> Sized(fields[f])
  {
    if Sized(fields[f]) {
      forall n: nat, t, i: nat | IsTable(fields, n, t) && i < n
        ensures Agrees(fields, n, t, f, i)
      {
        LayoutsAgree(fields, n, t, f, i);
      }
    } else {
      UnsizedDisagrees(fields, f);
      assert IsTable(fields, 2, TwoPoints(fields));
    }
  }

  /** The two give the same bytes wherever the cloud of the first `m` points asks. */
  ghost predicate SameCells(fields: seq<Field>, roles: Roles, m: nat, a: (nat, nat) -> seq<byte>,
                            b: (nat, nat) -> seq<byte>)
  {
    forall f: nat, i: nat | f < |fields| && IsRole(roles, f) && i < m :: a(f, i) == b(f, i)
  }

  lemma SamePoint<V>(c: Cloud<V>, fields: seq<Field>, roles: Roles, i: nat, a: (nat, nat) -> seq<byte>,
                     b: (nat, nat) -> seq<byte>, scalar: (seq<byte>, char) -> V)
    requires RolesOk(fields, roles) && SameCells(fields, roles, i + 1, a, b)
    ensures WithPoint(c, fields, roles, a, i, scalar) == WithPoint(c, fields, roles, b, i, scalar)
  {
    assert a(roles.x, i) == b(roles.x, i) && a(roles.y, i) == b(roles.y, i) && a(roles.z, i) == b(roles.z, i);
    if roles.intensity.Some? { assert a(roles.intensity.value, i) == b(roles.intensity.value, i); }
    if roles.normals.Some? {
      var (f, g, h) := roles.normals.value;
      assert a(f, i) == b(f, i) && a(g, i) == b(g, i) && a(h, i) == b(h, i);
    }
    if roles.rgb.Some? { assert a(roles.rgb.value, i) == b(roles.rgb.value, i); }
  }

  lemma {:induction false} SameCellsSameCloud<V>(fields: seq<Field>, roles: Roles, m: nat, a: (nat, nat) -> seq<byte>,
                                                 b: (nat, nat) -> seq<byte>, scalar: (seq<byte>, char) -> V)
    requires RolesOk(fields, roles) && SameCells(fields, roles, m, a, b)
    ensures CloudOf(fields, roles, m, a, scalar) == CloudOf(fields, roles, m, b, scalar)
  {
    hide WithPoint, RolesOk, IsRole;
    if m > 0 {
      SameCellsSameCloud(fields, roles, m - 1, a, b, scalar);
      SamePoint(CloudOf(fields, roles, m - 1, a, scalar), fields, roles, m - 1, a, b, scalar);
    }
  }

  lemma LayoutLengths(fields: seq<Field>, n: nat, t: seq<seq<seq<byte>>>)
    requires IsTable(fields, n, t)
    ensures n * Start(fields, |fields|) == |PointByPoint(t, n)| == |FieldByField(t)|
  {
    RowsLength(fields, n, t, n);
    assert Rows(t, n)[..n] == Rows(t, n);
    ColumnsLength(fields, n, t, |fields|);
    assert Columns(t)[..|fields|] == Columns(t);
  }

  /** A table written point by point and one written field by field are the same cloud, and can be read. */
  lemma SameCloud<V>(fields: seq<Field>, roles: Roles, n: nat, t: seq<seq<seq<byte>>>, scalar: (seq<byte>, char) -> V)
    requires IsTable(fields, n, t) && RolesOk(fields, roles) && RolesSized(fields, roles)
    ensures n * Start(fields, |fields|) == |PointByPoint(t, n)| == |FieldByField(t)|
    ensures TableReaches(fields, roles, n, false, |PointByPoint(t, n)|)
    ensures TableReaches(fields, roles, n, true, |FieldByField(t)|)
    ensures CloudOf(fields, roles, n, CellOf(fields, n, false, PointByPoint(t, n)), scalar) ==
            CloudOf(fields, roles, n, CellOf(fields, n, true, FieldByField(t)), scalar)
  {
    LayoutLengths(fields, n, t);
    LastPointDecides(fields, roles, n, false, |PointByPoint(t, n)|);
    LastPointDecides(fields, roles, n, true, |FieldByField(t)|);
    hide PointByPoint, FieldByField, Reaches, TableReaches;
    var a, b := CellOf(fields, n, false, PointByPoint(t, n)), CellOf(fields, n, true, FieldByField(t));
    forall f: nat, i: nat | f < |fields| && IsRole(roles, f) && i < n
      ensures a(f, i) == b(f, i)
    {
      LayoutsAgree(fields, n, t, f, i);
    }
    SameCellsSameCloud(fields, roles, n, a, b, scalar);
  }
}
