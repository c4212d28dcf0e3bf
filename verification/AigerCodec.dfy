/** The AND section of the binary AIGER format: variable-length deltas, written and read back. */
module AigerCodecs {
  import opened Aigs

  const TWO_7: nat := 128
  const UNSIGNED: nat := 0x1_0000_0000

  datatype Read<T> = Ok(value: T, rest: seq<nat>) | UnexpectedEof | InvalidCode | InvalidDelta

  // ----- what the bytes mean -----

  /** The number that the low seven bits of the bytes make up, the first byte being the lowest. */
  function Payload(bytes: seq<nat>): nat {
    if bytes == [] then 0 else bytes[0] % TWO_7 + TWO_7 * Payload(bytes[1..])
  }

  /** The bytes of one delta: all but the last have their top bit set. */
  predicate DeltaBytes(bytes: seq<nat>) {
    bytes != [] && bytes[|bytes| - 1] < TWO_7 && forall k :: 0 <= k < |bytes| - 1 ==> TWO_7 <= bytes[k] < 2 * TWO_7
  }

  /** As it is written: with no more bytes than needed. */
  ghost predicate Written(bytes: seq<nat>, delta: nat) {
    DeltaBytes(bytes) && Payload(bytes) == delta && (|bytes| > 1 ==> bytes[|bytes| - 1] != 0)
  }

  /** As it is read: at most six bytes, the sixth below 8, and 32 bits of the number. */
  ghost predicate ReadAs(bytes: seq<nat>, value: nat) {
    && DeltaBytes(bytes) && |bytes| <= 6 && (|bytes| == 6 ==> bytes[5] < 8)
    && value == Payload(bytes) % UNSIGNED
  }

  /** What reading has to answer. */
  ghost predicate Answer(bytes: seq<nat>, r: Read<nat>) {
    match r
    case Ok(value, rest) => exists d :: ReadAs(d, value) && bytes == d + rest
    case UnexpectedEof => |bytes| <= 5 && forall k :: 0 <= k < |bytes| ==> bytes[k] >= TWO_7
    case InvalidCode => |bytes| >= 6 && bytes[5] >= 8 && forall k :: 0 <= k < 5 ==> bytes[k] >= TWO_7
    case InvalidDelta => false
  }

  // ----- one delta -----

  /** Seven bits at a time, lowest first; all bytes but the last have their top bit set. */
  function Encode(delta: nat): (r: seq<nat>)
    ensures r != [] && forall b :: b in r ==> b < 256
  {
    if delta < TWO_7 then [delta] else [delta % TWO_7 + TWO_7] + Encode(delta / TWO_7)
  }

  lemma {:induction false} EncodeWritten(delta: nat)
    ensures Written(Encode(delta), delta) && (delta > 0 ==> Encode(delta)[|Encode(delta)| - 1] != 0)
  {
    if delta >= TWO_7 {
      EncodeWritten(delta / TWO_7);
      assert Encode(delta)[1..] == Encode(delta / TWO_7);
    }
  }

  method WriteDelta(out: seq<nat>, delta: nat) returns (out': seq<nat>)
    requires delta < UNSIGNED
    ensures out' == out + Encode(delta) && exists d :: Written(d, delta) && out' == out + d
  {
    EncodeWritten(delta);
    var tmp: nat := delta;
    out' := out;
    while tmp >= TWO_7
      invariant out' + Encode(tmp) == out + Encode(delta)
      decreases tmp
    {
      var ch := tmp % TWO_7 + TWO_7;
      assert Encode(tmp) == [ch] + Encode(tmp / TWO_7);
      assert out' + ([ch] + Encode(tmp / TWO_7)) == out' + [ch] + Encode(tmp / TWO_7);
      out' := out' + [ch];
      tmp := tmp / TWO_7;
    }
    out' := out' + [tmp];
  }

  /** 128 to the power i. */
  function Weight(i: nat): (w: nat)
    ensures w > 0
  {
    if i == 0 then 1 else TWO_7 * Weight(i - 1)
  }

  /** The bits that are kept once those of the i-th byte are there. */
  function Added(res: nat, bits: nat, i: nat): nat {
    (res + bits * Weight(i)) % UNSIGNED
  }

  /** The decoder after i continuation bytes with the bits res. A sixth continuation byte is
      invalid, and so is a sixth byte of 8 or more. Bits beyond the 32nd are lost. */
  function Decode(bytes: seq<nat>, i: nat, res: nat): Read<nat> {
    if bytes == [] then UnexpectedEof
    else if bytes[0] >= TWO_7 then
      if i == 5 then InvalidCode
      else Decode(bytes[1..], i + 1, Added(res, bytes[0] - TWO_7, i))
    else if i == 5 && bytes[0] >= 8 then InvalidCode
    else Ok(Added(res, bytes[0], i), bytes[1..])
  }

  method ReadDelta(bytes: seq<nat>) returns (r: Read<nat>)
    requires forall b :: b in bytes ==> b < 256
    ensures r == Decode(bytes, 0, 0) && Answer(bytes, r)
  {
    DecodeAnswers(bytes);
    if bytes == [] { return UnexpectedEof; }
    var i: nat, res: nat, rest := 0, 0, bytes;
    var ch := rest[0];
    while ch >= TWO_7
      invariant rest != [] && ch == rest[0] && i <= 5
      invariant Decode(rest, i, res) == Decode(bytes, 0, 0)
      decreases |rest|
    {
      if i == 5 { return InvalidCode; }
      res := (res + (ch - TWO_7) * Weight(i)) % UNSIGNED;
      i := i + 1;
      rest := rest[1..];
      if rest == [] { return UnexpectedEof; }
      ch := rest[0];
    }
    if i == 5 && ch >= 8 { return InvalidCode; }
    res := (res + ch * Weight(i)) % UNSIGNED;
    return Ok(res, rest[1..]);
  }

  /** The bits in res, and those that the bytes add from the i-th place on. */
  ghost predicate AnswerAt(bytes: seq<nat>, i: nat, res: nat, r: Read<nat>)
    requires i <= 5
  {
    match r
    case Ok(value, rest) => exists d :: AddsUp(d, i, res, value) && bytes == d + rest
    case UnexpectedEof => i + |bytes| <= 5 && forall k :: 0 <= k < |bytes| ==> bytes[k] >= TWO_7
    case InvalidCode => i + |bytes| >= 6 && bytes[5 - i] >= 8 && forall k :: 0 <= k < 5 - i ==> bytes[k] >= TWO_7
    case InvalidDelta => false
  }

  ghost predicate AddsUp(d: seq<nat>, i: nat, res: nat, value: nat) {
    && DeltaBytes(d) && i + |d| <= 6 && (i + |d| == 6 ==> d[|d| - 1] < 8)
    && value == Added(res, Payload(d), i)
  }

  lemma {:induction false} DecodeAnswersAt(bytes: seq<nat>, i: nat, res: nat)
    requires i <= 5 && forall b :: b in bytes ==> b < 2 * TWO_7
    ensures AnswerAt(bytes, i, res, Decode(bytes, i, res))
    decreases |bytes|
  {
    hide AddsUp, Weight, Added;
    if bytes == [] {
    } else {
      var b, later := bytes[0], bytes[1..];
      assert bytes == [b] + later && b in bytes;
      if b < TWO_7 {
        if i < 5 || b < 8 {
          LastAdds(b, i, res);
        }
      } else if i < 5 {
        assert forall c :: c in later ==> c in bytes;
        DecodeAnswersAt(later, i + 1, Added(res, b - TWO_7, i));
        Continued(b, later, i, res, Decode(later, i + 1, Added(res, b - TWO_7, i)));
      }
    }
  }

  lemma Continued(b: nat, later: seq<nat>, i: nat, res: nat, r: Read<nat>)
    requires i < 5 && TWO_7 <= b < 2 * TWO_7 && AnswerAt(later, i + 1, Added(res, b - TWO_7, i), r)
    ensures AnswerAt([b] + later, i, res, r)
  {
    hide AddsUp, Weight, Added;
    if r.Ok? {
      var d :| AddsUp(d, i + 1, Added(res, b - TWO_7, i), r.value) && later == d + r.rest;
      assert [b] + later == [b] + d + r.rest;
      OneMoreAdds(b, d, i, res, r.value);
    }
  }

  lemma LastAdds(b: nat, i: nat, res: nat)
    requires b < TWO_7 && i <= 5 && (i == 5 ==> b < 8)
    ensures AddsUp([b], i, res, Added(res, b, i))
  {
    hide Weight, Added;
    assert Payload([b]) == b % TWO_7 + TWO_7 * Payload([]);
  }

  lemma OneMoreAdds(b: nat, d: seq<nat>, i: nat, res: nat, value: nat)
    requires TWO_7 <= b < 2 * TWO_7 && AddsUp(d, i + 1, Added(res, b - TWO_7, i), value)
    ensures AddsUp([b] + d, i, res, value)
  {
    hide Weight, Added;
    assert ([b] + d)[1..] == d && Payload([b] + d) == b - TWO_7 + TWO_7 * Payload(d);
    AddedTwice(res, b - TWO_7, Payload(d), i);
  }

  lemma AddedTwice(res: nat, head: nat, x: nat, i: nat)
    ensures Added(Added(res, head, i), x, i + 1) == Added(res, head + TWO_7 * x, i)
  {
    WeightOfBoth(head, x, i);
    ModOfSum(res + head * Weight(i), x * Weight(i + 1));
  }

  lemma WeightOfBoth(head: nat, x: nat, i: nat)
    ensures (head + TWO_7 * x) * Weight(i) == head * Weight(i) + x * Weight(i + 1)
  {
    assert x * Weight(i + 1) == x * (TWO_7 * Weight(i));
    assert (head + TWO_7 * x) * Weight(i) == head * Weight(i) + TWO_7 * x * Weight(i);
  }

  lemma ModOfSum(a: nat, b: nat)
    ensures (a % UNSIGNED + b) % UNSIGNED == (a + b) % UNSIGNED
  {
    var q, q' := a / UNSIGNED, (a % UNSIGNED + b) / UNSIGNED;
    assert a + b == (q + q') * UNSIGNED + (a % UNSIGNED + b) % UNSIGNED;
  }

  lemma DecodeAnswers(bytes: seq<nat>)
    requires forall b :: b in bytes ==> b < 2 * TWO_7
    ensures Answer(bytes, Decode(bytes, 0, 0))
  {
    DecodeAnswersAt(bytes, 0, 0);
    var r := Decode(bytes, 0, 0);
    assert Weight(0) == 1;
    if r.Ok? {
      var d :| AddsUp(d, 0, 0, r.value) && bytes == d + r.rest;
      assert ReadAs(d, r.value);
    }
  }

  lemma SplitWeight(delta: nat, i: nat)
    ensures delta * Weight(i) == (delta % TWO_7) * Weight(i) + (delta / TWO_7) * Weight(i + 1)
  {
    var q, m := delta / TWO_7, delta % TWO_7;
    assert delta == q * TWO_7 + m;
    assert q * Weight(i + 1) == q * (TWO_7 * Weight(i));
    assert delta * Weight(i) == (q * TWO_7 + m) * Weight(i);
    assert (q * TWO_7 + m) * Weight(i) == q * TWO_7 * Weight(i) + m * Weight(i);
  }

  /** The bits still to come never reach the 33rd, so nothing is lost and the limit of bytes is
      not hit. */
  lemma {:induction false} DecodeEncode(delta: nat, i: nat, res: nat, rest: seq<nat>)
    requires res + delta * Weight(i) < UNSIGNED && i <= 4
    ensures Decode(Encode(delta) + rest, i, res) == Ok(res + delta * Weight(i), rest)
    decreases delta
  {
    var bytes := Encode(delta) + rest;
    if delta < TWO_7 {
      assert bytes[0] == delta && bytes[1..] == rest;
    } else {
      var head, next := delta % TWO_7, delta / TWO_7;
      var res' := res + head * Weight(i);
      SplitWeight(delta, i);
      assert bytes[0] == head + TWO_7 && bytes[1..] == Encode(next) + rest;
      StillRoom(next, i, res');
      DecodeEncode(next, i + 1, res', rest);
      DecodeStep(bytes, i, res, head);
    }
  }

  lemma DecodeStep(bytes: seq<nat>, i: nat, res: nat, head: nat)
    requires bytes != [] && bytes[0] == head + TWO_7 && i != 5 && res + head * Weight(i) < UNSIGNED
    ensures Decode(bytes, i, res) == Decode(bytes[1..], i + 1, res + head * Weight(i))
  {
  }

  lemma StillRoom(next: nat, i: nat, res: nat)
    requires next > 0 && res + next * Weight(i + 1) < UNSIGNED
    ensures i < 4 && res < UNSIGNED
  {
    assert next * Weight(i + 1) >= Weight(i + 1);
    if i >= 4 {
      BigWeight(i + 1);
    }
  }

  lemma {:induction false} BigWeight(i: nat)
    requires i >= 5
    ensures Weight(i) >= UNSIGNED
  {
    if i > 5 {
      BigWeight(i - 1);
    } else {
      assert Weight(1) == 128 && Weight(2) == 16384 && Weight(3) == 2097152 && Weight(4) == 268435456;
    }
  }

  /** Reading inverts writing, for every 32-bit value, and takes exactly the bytes written. */
  lemma DeltaRoundTrip(delta: nat, rest: seq<nat>)
    requires delta < UNSIGNED
    ensures Decode(Encode(delta) + rest, 0, 0) == Ok(delta, rest)
  {
    assert Weight(0) == 1;
    DecodeEncode(delta, 0, 0, rest);
  }

  // ----- the AND section -----

  /** What the re-encoding check demands of the gates: consecutive left-hand sides after the
      inputs and latches, operands in descending order. */
  predicate Reencoded(ands: seq<And>, max: nat) {
    forall i :: 0 <= i < |ands| ==>
      ands[i].lhs == max + 2 * (i + 1) && Descending(ands[i])
  }

  predicate Descending(g: And) {
    g.rhs1 <= g.rhs0 <= g.lhs
  }

  /** The bytes of one gate. */
  function EncodeAnd(g: And): seq<nat>
    requires Descending(g)
  {
    Encode(g.lhs - g.rhs0) + Encode(g.rhs0 - g.rhs1)
  }

  function EncodeAnds(ands: seq<And>): seq<nat>
    requires forall i :: 0 <= i < |ands| ==> Descending(ands[i])
  {
    if ands == [] then [] else EncodeAnd(ands[0]) + EncodeAnds(ands[1..])
  }

  /** The section of some gates: for each the difference of left-hand side and first operand, and that
      of the operands. */
  ghost predicate Section(bytes: seq<nat>, ands: seq<And>)
    decreases |ands|
  {
    if ands == [] then bytes == []
    else exists a, b, rest ::
      WrittenGate(a, b, ands[0]) && bytes == a + b + rest && Section(rest, ands[1..])
  }

  ghost predicate WrittenGate(a: seq<nat>, b: seq<nat>, g: And) {
    Descending(g) && Written(a, g.lhs - g.rhs0) && Written(b, g.rhs0 - g.rhs1)
  }

  lemma {:induction false} EncodedSection(ands: seq<And>)
    requires forall i :: 0 <= i < |ands| ==> Descending(ands[i])
    ensures Section(EncodeAnds(ands), ands)
    decreases |ands|
  {
    if ands != [] {
      var g := ands[0];
      EncodeWritten(g.lhs - g.rhs0);
      EncodeWritten(g.rhs0 - g.rhs1);
      EncodedSection(ands[1..]);
      assert WrittenGate(Encode(g.lhs - g.rhs0), Encode(g.rhs0 - g.rhs1), g);
    }
  }

  /** Gates that are read: their left-hand sides count up, and the rest of the bytes is left. */
  ghost predicate ReadSection(bytes: seq<nat>, lhs: nat, ands: seq<And>, rest: seq<nat>)
    decreases |ands|
  {
    if ands == [] then rest == bytes
    else exists a, b, more ::
      ReadGate(a, b, lhs + 2, ands[0]) && bytes == a + b + more && ReadSection(more, lhs + 2, ands[1..], rest)
  }

  ghost predicate ReadGate(a: seq<nat>, b: seq<nat>, lhs: nat, g: And) {
    g.lhs == lhs && Descending(g) && ReadAs(a, g.lhs - g.rhs0) && ReadAs(b, g.rhs0 - g.rhs1)
  }

  predicate SameError(a: Read<nat>, r: Read<seq<And>>) {
    (a.UnexpectedEof? && r.UnexpectedEof?) || (a.InvalidCode? && r.InvalidCode?)
  }

  /** Why the next gate cannot be read: one of its deltas is no delta, or too large. */
  ghost predicate GateFails(bytes: seq<nat>, lhs: nat, r: Read<seq<And>>) {
    exists d: Read<nat> :: Answer(bytes, d) && (SameError(d, r) || (d.Ok? && SecondFails(d, lhs, r)))
  }

  ghost predicate SecondFails(d: Read<nat>, lhs: nat, r: Read<seq<And>>)
    requires d.Ok?
  {
    if d.value > lhs then r.InvalidDelta?
    else exists e: Read<nat> ::
      Answer(d.rest, e) && (SameError(e, r) || (e.Ok? && e.value > lhs - d.value && r.InvalidDelta?))
  }

  /** The reader stops behind the last gate, or at the first one that cannot be read. */
  ghost predicate AndsAnswer(n: nat, max: nat, bytes: seq<nat>, r: Read<seq<And>>) {
    if r.Ok? then |r.value| == n && ReadSection(bytes, max, r.value, r.rest)
    else exists ands, more ::
      |ands| < n && ReadSection(bytes, max, ands, more) && GateFails(more, max + 2 * |ands| + 2, r)
  }

  lemma Assoc(a: seq<nat>, b: seq<nat>, c: seq<nat>)
    ensures a + (b + c) == a + b + c
  {
  }

  lemma WriteStep(out: seq<nat>, ands: seq<And>, i: nat)
    requires i < |ands| && forall j :: 0 <= j < |ands| ==> Descending(ands[j])
    ensures out + EncodeAnds(ands[i..])
         == out + Encode(ands[i].lhs - ands[i].rhs0) + Encode(ands[i].rhs0 - ands[i].rhs1) + EncodeAnds(ands[i + 1..])
  {
    var d0, d1, tail := Encode(ands[i].lhs - ands[i].rhs0), Encode(ands[i].rhs0 - ands[i].rhs1),
      EncodeAnds(ands[i + 1..]);
    assert ands[i..][1..] == ands[i + 1..];
    Assoc(out, d0 + d1, tail);
    Assoc(out, d0, d1);
  }

  method WriteAnds(ands: seq<And>, max: nat) returns (out: seq<nat>)
    requires Reencoded(ands, max) && max + 2 * |ands| < UNSIGNED
    ensures out == EncodeAnds(ands) && Section(out, ands)
  {
    hide Section, Written;
    out := [];
    var lhs := max + 2;
    var i := 0;
    while i < |ands|
      invariant 0 <= i <= |ands| && lhs == max + 2 * (i + 1) && out + EncodeAnds(ands[i..]) == EncodeAnds(ands)
    {
      var g := ands[i];
      WriteStep(out, ands, i);
      out := WriteDelta(out, lhs - g.rhs0);
      out := WriteDelta(out, g.rhs0 - g.rhs1);
      lhs := lhs + 2;
      i := i + 1;
    }
    assert out + [] == out;
    EncodedSection(ands);
  }

  /** The reader after it has accepted some gates. */
  function DecodeAnds(n: nat, lhs: nat, ands: seq<And>, bytes: seq<nat>): Read<seq<And>>
    decreases n
  {
    if n == 0 then Ok(ands, bytes)
    else
      match Decode(bytes, 0, 0)
      case Ok(d0, rest0) =>
        if d0 > lhs + 2 then InvalidDelta
        else (
          match Decode(rest0, 0, 0)
          case Ok(d1, rest1) =>
            if d1 > lhs + 2 - d0 then InvalidDelta
            else DecodeAnds(n - 1, lhs + 2, ands + [And(lhs + 2, lhs + 2 - d0, lhs + 2 - d0 - d1)], rest1)
          case UnexpectedEof => UnexpectedEof
          case _ => InvalidCode)
      case UnexpectedEof => UnexpectedEof
      case _ => InvalidCode
  }

  lemma DecodeFails(bytes: seq<nat>, i: nat, res: nat)
    ensures !Decode(bytes, i, res).InvalidDelta?
    ensures Decode(bytes, i, res).Ok? ==> forall b :: b in Decode(bytes, i, res).rest ==> b in bytes
    decreases |bytes|
  {
    if bytes != [] && bytes[0] >= TWO_7 && i != 5 {
      DecodeFails(bytes[1..], i + 1, Added(res, bytes[0] - TWO_7, i));
    }
  }

  lemma {:induction false} DecodedAnds(n: nat, lhs: nat, read: seq<And>, bytes: seq<nat>) returns (ands: seq<And>)
    requires forall b :: b in bytes ==> b < 2 * TWO_7
    ensures var r := DecodeAnds(n, lhs, read, bytes);
            if r.Ok? then r.value == read + ands && |ands| == n && ReadSection(bytes, lhs, ands, r.rest)
            else |ands| < n && exists more ::
              ReadSection(bytes, lhs, ands, more) && GateFails(more, lhs + 2 * |ands| + 2, r)
    decreases n
  {
    hide ReadSection, GateFails, Answer;
    ands := [];
    ReadNothing(bytes, lhs);
    var r := DecodeAnds(n, lhs, read, bytes);
    if n == 0 {
      assert read + ands == read;
      return;
    }
    var d, e := Decode(bytes, 0, 0), Decode(SecondBytes(bytes), 0, 0);
    GateAnswers(bytes, lhs + 2);
    if d.Ok? && d.value <= lhs + 2 && e.Ok? && e.value <= lhs + 2 - d.value {
      var g := And(lhs + 2, lhs + 2 - d.value, lhs + 2 - d.value - e.value);
      var later := DecodedAnds(n - 1, lhs + 2, read + [g], e.rest);
      ands := [g] + later;
      assert read + [g] + later == read + ands;
      if r.Ok? {
        FirstGate(bytes, lhs, g, d, e, later, r.rest);
      } else {
        var more :| ReadSection(e.rest, lhs + 2, later, more) && GateFails(more, lhs + 2 + 2 * |later| + 2, r);
        FirstGate(bytes, lhs, g, d, e, later, more);
      }
    } else {
      GateRefused(n, lhs, read, bytes);
    }
  }

  lemma ReadNothing(bytes: seq<nat>, lhs: nat)
    ensures ReadSection(bytes, lhs, [], bytes)
  {
  }

  /** The bytes behind the first delta. */
  function SecondBytes(bytes: seq<nat>): seq<nat> {
    var d := Decode(bytes, 0, 0);
    if d.Ok? then d.rest else []
  }

  lemma GateAnswers(bytes: seq<nat>, lhs: nat)
    requires forall b :: b in bytes ==> b < 2 * TWO_7
    ensures Answer(bytes, Decode(bytes, 0, 0)) && Answer(SecondBytes(bytes), Decode(SecondBytes(bytes), 0, 0))
    ensures Decode(SecondBytes(bytes), 0, 0).Ok? ==>
              forall b :: b in Decode(SecondBytes(bytes), 0, 0).rest ==> b < 2 * TWO_7
  {
    hide Answer;
    DecodeAnswers(bytes);
    DecodeFails(bytes, 0, 0);
    DecodeAnswers(SecondBytes(bytes));
    DecodeFails(SecondBytes(bytes), 0, 0);
  }

  lemma GateRefused(n: nat, lhs: nat, read: seq<And>, bytes: seq<nat>)
    requires n > 0 && forall b :: b in bytes ==> b < 2 * TWO_7
    requires var d, e := Decode(bytes, 0, 0), Decode(SecondBytes(bytes), 0, 0);
             !(d.Ok? && d.value <= lhs + 2 && e.Ok? && e.value <= lhs + 2 - d.value)
    ensures !DecodeAnds(n, lhs, read, bytes).Ok? && GateFails(bytes, lhs + 2, DecodeAnds(n, lhs, read, bytes))
  {
    hide Answer, Decode;
    GateAnswers(bytes, lhs + 2);
    var d, e, r := Decode(bytes, 0, 0), Decode(SecondBytes(bytes), 0, 0), DecodeAnds(n, lhs, read, bytes);
    NeverInvalidDelta(bytes);
    NeverInvalidDelta(SecondBytes(bytes));
    assert d.Ok? ==> SecondFails(d, lhs + 2, r);
  }

  lemma NeverInvalidDelta(bytes: seq<nat>)
    ensures !Decode(bytes, 0, 0).InvalidDelta?
  {
    DecodeFails(bytes, 0, 0);
  }

  lemma FirstGate(bytes: seq<nat>, lhs: nat, g: And, d: Read<nat>, e: Read<nat>, later: seq<And>, rest: seq<nat>)
    requires d.Ok? && e.Ok? && Answer(bytes, d) && Answer(d.rest, e) && d.value + e.value <= lhs + 2
    requires g == And(lhs + 2, lhs + 2 - d.value, lhs + 2 - d.value - e.value)
      && ReadSection(e.rest, lhs + 2, later, rest)
    ensures ReadSection(bytes, lhs, [g] + later, rest)
  {
    var a :| ReadAs(a, d.value) && bytes == a + d.rest;
    var b :| ReadAs(b, e.value) && d.rest == b + e.rest;
    assert ReadGate(a, b, lhs + 2, g) && bytes == a + b + e.rest && ([g] + later)[1..] == later;
  }

  lemma ReadAnswers(n: nat, max: nat, bytes: seq<nat>)
    requires forall b :: b in bytes ==> b < 2 * TWO_7
    ensures AndsAnswer(n, max, bytes, DecodeAnds(n, max, [], bytes))
  {
    var found := DecodedAnds(n, max, [], bytes);
    assert [] + found == found;
  }

  method ReadAnds(n: nat, max: nat, bytes: seq<nat>) returns (r: Read<seq<And>>)
    requires forall b :: b in bytes ==> b < 256
    ensures r == DecodeAnds(n, max, [], bytes) && AndsAnswer(n, max, bytes, r)
  {
    hide AndsAnswer, Answer;
    ReadAnswers(n, max, bytes);
    var lhs: nat, ands: seq<And>, rest := max, [], bytes;
    var i := 0;
    while i < n
      invariant 0 <= i <= n && (forall b :: b in rest ==> b < 256)
      invariant DecodeAnds(n - i, lhs, ands, rest) == DecodeAnds(n, max, [], bytes)
    {
      var lhs' := lhs + 2;
      var d := ReadDelta(rest);
      DecodeFails(rest, 0, 0);
      if d.UnexpectedEof? { return UnexpectedEof; }
      if d.InvalidCode? { return InvalidCode; }
      if d.value > lhs' { return InvalidDelta; }
      var rhs0 := lhs' - d.value;
      var e := ReadDelta(d.rest);
      DecodeFails(d.rest, 0, 0);
      if e.UnexpectedEof? { return UnexpectedEof; }
      if e.InvalidCode? { return InvalidCode; }
      if e.value > rhs0 { return InvalidDelta; }
      ands := ands + [And(lhs', rhs0, rhs0 - e.value)];
      lhs, rest := lhs', e.rest;
      i := i + 1;
    }
    return Ok(ands, rest);
  }

  lemma {:induction false} DecodeEncodeAnds(ands: seq<And>, max: nat, read: seq<And>, rest: seq<nat>)
    requires Reencoded(ands, max) && max + 2 * |ands| < UNSIGNED
    ensures DecodeAnds(|ands|, max, read, EncodeAnds(ands) + rest) == Ok(read + ands, rest)
    decreases |ands|
  {
    if ands == [] {
      assert EncodeAnds(ands) + rest == rest && read + ands == read;
    } else {
      Assoc(EncodeAnd(ands[0]), EncodeAnds(ands[1..]), rest);
      GateRoundTrip(|ands| - 1, max, read, ands[0], EncodeAnds(ands[1..]) + rest);
      DecodeEncodeAnds(ands[1..], max + 2, read + [ands[0]], rest);
      assert read + [ands[0]] + ands[1..] == read + ands;
    }
  }

  lemma GateRoundTrip(n: nat, lhs: nat, read: seq<And>, g: And, after: seq<nat>)
    requires Descending(g) && g.lhs == lhs + 2 < UNSIGNED
    ensures DecodeAnds(n + 1, lhs, read, EncodeAnd(g) + after) == DecodeAnds(n, lhs + 2, read + [g], after)
  {
    var d0, d1 := g.lhs - g.rhs0, g.rhs0 - g.rhs1;
    Assoc(Encode(d0), Encode(d1), after);
    DeltaRoundTrip(d0, Encode(d1) + after);
    DeltaRoundTrip(d1, after);
    assert g == And(lhs + 2, lhs + 2 - d0, lhs + 2 - d0 - d1);
  }

  /** For every re-encoded circuit, reading back the bytes written gives the same gates and stops
      right behind them. */
  lemma AndsRoundTrip(ands: seq<And>, max: nat, rest: seq<nat>)
    requires Reencoded(ands, max) && max + 2 * |ands| < UNSIGNED
    ensures DecodeAnds(|ands|, max, [], EncodeAnds(ands) + rest) == Ok(ands, rest)
  {
    DecodeEncodeAnds(ands, max, [], rest);
    assert [] + ands == ands;
  }
}
