/**
  The canonical bytes of a command's identity: a tag, then every field behind its length as a
  little-endian 32-bit integer, with the target streams sorted and without repeats. A decoder
  inverts the form, so equal bytes mean an equal identity.
 */
module Digest {
  import opened Basics
  import opened Order

  const TWO32 := 0x1_0000_0000
  const TAG := "evt-cmd-digest-v1"

  datatype Input = Input(commandType: string, targets: seq<string>, payload: string, principal: string)

  // ----- Length prefixes

  /** A 32-bit little-endian integer; what does not fit is cut off. */
  function U32(n: nat): (bytes: string)
    ensures |bytes| == 4
  {
    var m := n % TWO32;
    [(m % 256) as char, (m / 256 % 256) as char, (m / 65536 % 256) as char, (m / 16777216) as char]
  }

  function FromU32(bytes: string): nat
    requires |bytes| == 4
  {
    bytes[0] as nat + 256 * (bytes[1] as nat) + 65536 * (bytes[2] as nat) + 16777216 * (bytes[3] as nat)
  }

  lemma {:induction false} U32ReadsBack(n: nat)
    ensures FromU32(U32(n)) == n % TWO32
  {
    var m := n % TWO32;
    assert m == 256 * (m / 256) + m % 256;
    assert m / 256 == 256 * (m / 256 / 256) + m / 256 % 256 && m / 256 / 256 == m / 65536;
    assert m / 65536 == 256 * (m / 65536 / 256) + m / 65536 % 256 && m / 65536 / 256 == m / 16777216;
  }

  function Prefixed(value: string): string
  {
    U32(|value|) + value
  }

  function PrefixedAll(values: seq<string>): string
  {
    if values == [] then "" else Prefixed(values[0]) + PrefixedAll(values[1..])
  }

  /** Splits off one length-prefixed value. */
  function Take(bytes: string): Option<(string, string)>
  {
    if |bytes| < 4 then None
    else
      var n := FromU32(bytes[..4]);
      if |bytes| < 4 + n then None else Some((bytes[4..4 + n], bytes[4 + n..]))
  }

  function TakeAll(count: nat, bytes: string): Option<(seq<string>, string)>
  {
    if count == 0 then Some(([], bytes))
    else
      match Take(bytes)
      case None => None
      case Some((value, rest)) =>
        match TakeAll(count - 1, rest)
        case None => None
        case Some((values, end)) => Some(([value] + values, end))
  }

  lemma {:induction false} TakesBack(value: string, rest: string)
    requires |value| < TWO32
    ensures Take(Prefixed(value) + rest) == Some((value, rest))
  {
    var bytes := Prefixed(value) + rest;
    U32ReadsBack(|value|);
    assert bytes[..4] == U32(|value|);
    assert bytes[4..4 + |value|] == value && bytes[4 + |value|..] == rest;
  }

  lemma {:induction false} TakesAllBack(values: seq<string>, rest: string)
    requires forall i | 0 <= i < |values| :: |values[i]| < TWO32
    ensures TakeAll(|values|, PrefixedAll(values) + rest) == Some((values, rest))
  {
    if values == [] {
      assert PrefixedAll(values) + rest == rest;
    } else {
      TakesAllBack(values[1..], rest);
      assert PrefixedAll(values) + rest == Prefixed(values[0]) + (PrefixedAll(values[1..]) + rest);
      TakesBack(values[0], PrefixedAll(values[1..]) + rest);
      assert [values[0]] + values[1..] == values;
    }
  }

  // ----- The set of targets, listed

  function TargetKey(t: string): Key { (t, "", 0) }

  /** Removes each element equal to the one before it. */
  function Compact(xs: seq<string>): seq<string>
  {
    if |xs| <= 1 then xs
    else
      var front := Compact(xs[..|xs| - 1]);
      if xs[|xs| - 2] == xs[|xs| - 1] then front else front + [xs[|xs| - 1]]
  }

  function Listed(targets: seq<string>): seq<string>
  {
    Compact(Sort(targets, TargetKey))
  }

  lemma {:induction false} CompactKeeps(xs: seq<string>)
    requires Sorted(xs, TargetKey)
    ensures Sorted(Compact(xs), TargetKey) && DistinctKeys(Compact(xs), TargetKey)
    ensures forall x :: x in Compact(xs) <==> x in xs
    ensures xs != [] ==> Compact(xs) != [] && Compact(xs)[|Compact(xs)| - 1] == xs[|xs| - 1]
  {
    if |xs| > 1 {
      var front, last := xs[..|xs| - 1], xs[|xs| - 1];
      CompactKeeps(front);
      assert xs == front + [last];
      var c := Compact(front);
      var top := c[|c| - 1];
      assert top == xs[|xs| - 2] && KeyLeq(TargetKey(top), TargetKey(last));
      if top != last { Appended(c, last); }
    }
  }

  lemma {:induction false} Appended(c: seq<string>, last: string)
    requires c != [] && Sorted(c, TargetKey) && DistinctKeys(c, TargetKey)
    requires c[|c| - 1] != last && KeyLeq(TargetKey(c[|c| - 1]), TargetKey(last))
    ensures Sorted(c + [last], TargetKey) && DistinctKeys(c + [last], TargetKey)
  {
    var top := |c| - 1;
    forall i | 0 <= i < |c| ensures KeyLeq(TargetKey(c[i]), TargetKey(last)) && c[i] != last {
      if i < top {
        KeyTransitive(TargetKey(c[i]), TargetKey(c[top]), TargetKey(last));
        if c[i] == last { KeyAntisymmetric(TargetKey(c[i]), TargetKey(c[top])); }
      }
    }
  }

  /** The listing is in order, without repeats, and holds exactly the targets. */
  lemma {:induction false} ListedIsTheSet(targets: seq<string>)
    ensures Sorted(Listed(targets), TargetKey) && DistinctKeys(Listed(targets), TargetKey)
    ensures forall t :: t in Listed(targets) <==> t in targets
  {
    SortKeeps(targets, TargetKey);
    CompactKeeps(Sort(targets, TargetKey));
    forall t ensures t in Listed(targets) <==> t in targets {
      assert t in multiset(Sort(targets, TargetKey)) <==> t in multiset(targets);
    }
  }

  /** Two listings are equal exactly when the sets of targets are. */
  lemma {:induction false} ListedIsCanonical(a: seq<string>, b: seq<string>)
    ensures Listed(a) == Listed(b) <==> forall t :: t in a <==> t in b
  {
    ListedIsTheSet(a);
    ListedIsTheSet(b);
    if forall t :: t in a <==> t in b { ListingUnique(Listed(a), Listed(b), TargetKey); }
  }

  // ----- The canonical bytes

  function Encoded(input: Input): string
  {
    var targets := Listed(input.targets);
    TAG + "\0" + Prefixed(input.commandType) + U32(|targets|) + PrefixedAll(targets)
    + Prefixed(input.payload) + Prefixed(input.principal)
  }

  /** Every length and the number of targets fit in 32 bits. */
  predicate Fits(input: Input)
  {
    && |input.commandType| < TWO32 && |input.payload| < TWO32 && |input.principal| < TWO32
    && |Listed(input.targets)| < TWO32
    && forall i | 0 <= i < |Listed(input.targets)| :: |Listed(input.targets)[i]| < TWO32
  }

  /** Reads canonical bytes back: the command type, the listed targets, the payload and the principal. */
  function Decode(bytes: string): Option<Input>
  {
    if !(TAG + "\0" <= bytes) then None
    else
      match Take(bytes[|TAG| + 1..])
      case None => None
      case Some((commandType, rest)) => DecodeTargets(commandType, rest)
  }

  function DecodeTargets(commandType: string, bytes: string): Option<Input>
  {
    if |bytes| < 4 then None
    else
      match TakeAll(FromU32(bytes[..4]), bytes[4..])
      case None => None
      case Some((targets, rest)) => DecodeEnd(commandType, targets, rest)
  }

  function DecodeEnd(commandType: string, targets: seq<string>, bytes: string): Option<Input>
  {
    match Take(bytes)
    case None => None
    case Some((payload, rest)) =>
      match Take(rest)
      case None => None
      case Some((principal, end)) => if end == "" then Some(Input(commandType, targets, payload, principal)) else None
  }

  lemma {:induction false} EndReadsBack(commandType: string, targets: seq<string>, payload: string, principal: string)
    requires |payload| < TWO32 && |principal| < TWO32
    ensures DecodeEnd(commandType, targets, Prefixed(payload) + Prefixed(principal)) ==
            Some(Input(commandType, targets, payload, principal))
  {
    TakesBack(payload, Prefixed(principal));
    TakesBack(principal, "");
    assert Prefixed(principal) + "" == Prefixed(principal);
  }

  lemma {:induction false} CountReadsBack(n: nat)
    requires n < TWO32
    ensures FromU32(U32(n)) == n
  {}

  lemma {:induction false} TargetsReadBack(commandType: string, targets: seq<string>, count: string, end: string)
    requires forall i | 0 <= i < |targets| :: |targets[i]| < TWO32
    requires |count| == 4 && FromU32(count) == |targets|
    ensures DecodeTargets(commandType, count + (PrefixedAll(targets) + end)) == DecodeEnd(commandType, targets, end)
  {
    TakesAllBack(targets, end);
  }

  lemma {:induction false} TypeReadsBack(commandType: string, rest: string)
    requires |commandType| < TWO32
    ensures Decode((TAG + "\0") + (Prefixed(commandType) + rest)) == DecodeTargets(commandType, rest)
  {
    var bytes := (TAG + "\0") + (Prefixed(commandType) + rest);
    assert bytes[|TAG| + 1..] == Prefixed(commandType) + rest;
    TakesBack(commandType, rest);
  }

  lemma {:induction false} Regrouped(a: string, b: string, c: string, d: string, e: string, f: string)
    ensures a + b + c + d + e + f == a + (b + (c + (d + (e + f))))
  {}

  /** Decoding inverts the encoding: it gives the identity with its targets listed. */
  lemma {:induction false} DecodesBack(input: Input)
    requires Fits(input)
    ensures Decode(Encoded(input)) == Some(input.(targets := Listed(input.targets)))
  {
    var targets := Listed(input.targets);
    var end := Prefixed(input.payload) + Prefixed(input.principal);
    Regrouped(TAG + "\0", Prefixed(input.commandType), U32(|targets|), PrefixedAll(targets),
              Prefixed(input.payload), Prefixed(input.principal));
    TypeReadsBack(input.commandType, U32(|targets|) + (PrefixedAll(targets) + end));
    CountReadsBack(|targets|);
    TargetsReadBack(input.commandType, targets, U32(|targets|), end);
    EndReadsBack(input.commandType, targets, input.payload, input.principal);
  }

  predicate SameIdentity(a: Input, b: Input)
  {
    a.commandType == b.commandType && a.payload == b.payload && a.principal == b.principal
    && (forall t | t in a.targets :: t in b.targets) && (forall t | t in b.targets :: t in a.targets)
  }

  /** Equal bytes exactly for equal command type, set of targets, payload and principal. */
  lemma {:induction false} EncodingIsInjective(a: Input, b: Input)
    requires Fits(a) && Fits(b)
    ensures Encoded(a) == Encoded(b) <==> SameIdentity(a, b)
  {
    DecodesBack(a);
    DecodesBack(b);
    ListedIsCanonical(a.targets, b.targets);
  }

  function Zeros(n: nat): string { seq(n, _ => '\0') }

  /** The 32-bit lengths are needed: at 2^32 bytes two different identities encode alike. */
  lemma {:induction false} OversizedFieldsCollide()
    ensures var a, b := Input("", [], Zeros(TWO32), ""), Input("", [], "", Zeros(TWO32));
            !SameIdentity(a, b) && Encoded(a) == Encoded(b)
  {
    assert U32(TWO32) == Zeros(4) && U32(0) == Zeros(4);
    var long := Zeros(TWO32);
    assert |long| == TWO32 && |""| == 0;
    assert Prefixed(long) == Zeros(4) + long && Prefixed("") == Zeros(4);
    assert Prefixed(long) + Prefixed("") == Prefixed("") + Prefixed(long);
    var start := TAG + "\0" + Prefixed("") + U32(0) + PrefixedAll([]);
    assert (start + Prefixed(long)) + Prefixed("") == start + (Prefixed(long) + Prefixed(""));
    assert (start + Prefixed("")) + Prefixed(long) == start + (Prefixed("") + Prefixed(long));
    assert Listed([]) == [];
  }

  // ----- The documented layout

  /** A short field: its length in one byte, three zero bytes, and its text. */
  function Short(value: string): string
    requires |value| < 256
  {
    [|value| as char, '\0', '\0', '\0'] + value
  }

  lemma {:induction false} ShortPrefix(value: string)
    requires |value| < 256
    ensures Prefixed(value) == Short(value)
  {}

  lemma {:induction false} OneCount()
    ensures U32(1) == ['\U{01}', '\0', '\0', '\0']
  {}

  lemma {:induction false} OneTarget(target: string)
    ensures Listed([target]) == [target] && PrefixedAll([target]) == Prefixed(target)
  {
    assert [target][1..] == [] && Prefixed(target) + "" == Prefixed(target);
    SortKeeps([target], TargetKey);
    var sorted := Sort([target], TargetKey);
    assert multiset(sorted) == multiset{target};
    assert |sorted| == 1 && sorted[0] in multiset(sorted);
  }

  /** The bytes of the documentation's worked example and of every other identity of that shape. */
  lemma {:induction false} DocumentedLayout(commandType: string, target: string, payload: string, principal: string)
    requires |commandType| < 256 && |target| < 256 && |payload| < 256 && |principal| < 256
    ensures Encoded(Input(commandType, [target], payload, principal)) ==
            "evt-cmd-digest-v1\0" + Short(commandType) + ['\U{01}', '\0', '\0', '\0'] + Short(target)
            + Short(payload) + Short(principal)
  {
    OneCount();
    OneTarget(target);
    ShortPrefix(commandType);
    ShortPrefix(target);
    ShortPrefix(payload);
    ShortPrefix(principal);
  }

  // ----- Writing them

  method CompactTargets(xs: seq<string>) returns (ys: seq<string>)
    ensures ys == Compact(xs)
  {
    if |xs| <= 1 {
      return xs;
    }
    ys := [xs[0]];
    for i := 1 to |xs|
      invariant ys == Compact(xs[..i])
    {
      assert xs[..i + 1][..i] == xs[..i];
      if xs[i - 1] != xs[i] {
        ys := ys + [xs[i]];
      }
    }
    assert xs[..|xs|] == xs;
  }

  lemma {:induction false} PrefixedSnoc(values: seq<string>, value: string)
    ensures PrefixedAll(values + [value]) == PrefixedAll(values) + Prefixed(value)
  {
    if values == [] {
      assert [] + [value] == [value] && [value][1..] == [];
      assert PrefixedAll([value]) == Prefixed(value) + "";
    } else {
      PrefixedSnoc(values[1..], value);
      assert (values + [value])[1..] == values[1..] + [value];
    }
  }

  method WriteTargets(start: string, targets: seq<string>) returns (buffer: string)
    ensures buffer == start + PrefixedAll(targets)
  {
    buffer := start;
    for i := 0 to |targets|
      invariant buffer == start + PrefixedAll(targets[..i])
    {
      PrefixedSnoc(targets[..i], targets[i]);
      assert targets[..i + 1] == targets[..i] + [targets[i]];
      buffer := buffer + Prefixed(targets[i]);
    }
    assert targets[..|targets|] == targets;
  }

  method CanonicalDigestBytes(input: Input) returns (buffer: string)
    ensures buffer == Encoded(input)
    ensures Fits(input) ==> Decode(buffer) == Some(input.(targets := Listed(input.targets)))
  {
    var targets := CompactTargets(Sort(input.targets, TargetKey));
    buffer := TAG + "\0";
    buffer := buffer + Prefixed(input.commandType);
    buffer := buffer + U32(|targets|);
    buffer := WriteTargets(buffer, targets);
    buffer := buffer + Prefixed(input.payload);
    buffer := buffer + Prefixed(input.principal);
    if Fits(input) { DecodesBack(input); }
  }
}
