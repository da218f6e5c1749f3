/**
 * Keys of the allocator key space (v2/pkg/allocator/allocator_key_space.go): the order of encoded Assignment
 * keys is the order of Assignments, and keys decode back. A `char` stands for a byte of a key.
 */
module AllocatorKeys {
  import opened Common
  import opened LeftJoin

  const Sep: char := '#'

  datatype Assignment = Assignment(itemId: string, zone: string, suffix: string, slot: nat)

  /** Bytewise order of strings. */
  predicate Less(x: string, y: string) {
    y != [] && (x == [] || x[0] < y[0] || (x[0] == y[0] && Less(x[1..], y[1..])))
  }

  function CompareString(x: string, y: string): int {
    if Less(x, y) then -1 else if Less(y, x) then 1 else 0
  }

  function CompareAssignment(l: Assignment, r: Assignment): int {
    if Less(l.itemId, r.itemId) then -1
    else if Less(r.itemId, l.itemId) then 1
    else if Less(l.zone, r.zone) then -1
    else if Less(r.zone, l.zone) then 1
    else if Less(l.suffix, r.suffix) then -1
    else if Less(r.suffix, l.suffix) then 1
    else 0
  }

  // ---------------------------------------------------------------------------
  // Bytewise order is total.

  lemma {:induction false} LessIsIrreflexive(x: string)
    ensures !Less(x, x)
  {
    if x != [] {
      LessIsIrreflexive(x[1..]);
    }
  }

  lemma {:induction false} LessIsTransitive(x: string, y: string, z: string)
    requires Less(x, y) && Less(y, z)
    ensures Less(x, z)
  {
    if x != [] && x[0] == y[0] && y[0] == z[0] {
      LessIsTransitive(x[1..], y[1..], z[1..]);
    }
  }

  lemma {:induction false} LessIsTotal(x: string, y: string)
    ensures Less(x, y) || Less(y, x) || x == y
  {
    if x != [] && y != [] && x[0] == y[0] {
      LessIsTotal(x[1..], y[1..]);
      assert x == [x[0]] + x[1..] && y == [y[0]] + y[1..];
    }
  }

  lemma CompareStringMeaning(x: string, y: string)
    ensures CompareString(x, y) == 0 <==> x == y
    ensures CompareString(x, y) == -1 <==> Less(x, y)
    ensures CompareString(x, y) == 1 <==> Less(y, x)
  {
    LessIsTotal(x, y);
    LessIsIrreflexive(x);
    if Less(x, y) && Less(y, x) {
      LessIsTransitive(x, y, x);
    }
  }

  // ---------------------------------------------------------------------------
  // Encoding

  /** assertAboveSep: all characters are above the separator. */
  predicate AboveSep(s: string) {
    forall i :: 0 <= i < |s| ==> s[i] > Sep
  }

  /** An Assignment whose key can be encoded without a panic. */
  predicate IsEncodable(a: Assignment) {
    AboveSep(a.itemId) && AboveSep(a.zone) && AboveSep(a.suffix)
  }

  function Digit(d: nat): char
    requires d < 10
  {
    '0' + d as char
  }

  function Itoa(n: nat): string {
    if n < 10 then [Digit(n)] else Itoa(n / 10) + [Digit(n % 10)]
  }

  function AssignmentKey(prefix: string, a: Assignment): string {
    prefix + (a.itemId + [Sep] + (a.zone + [Sep] + (a.suffix + [Sep] + Itoa(a.slot))))
  }

  /** The separator is below all else, so a component decides the order before what follows it does. */
  lemma {:induction false} SeparatorOrder(x: string, y: string, u: string, v: string)
    requires AboveSep(x) && AboveSep(y)
    ensures Less(x + [Sep] + u, y + [Sep] + v) <==> Less(x, y) || (x == y && Less(u, v))
  {
    var a, b := x + [Sep] + u, y + [Sep] + v;
    if x == [] && y == [] {
      assert a[1..] == u && b[1..] == v;
    } else if x == [] || y == [] {
      assert x == [] ==> a[0] == Sep && b[0] == y[0];
      assert y == [] ==> b[0] == Sep && a[0] == x[0];
    } else {
      assert a[0] == x[0] && b[0] == y[0];
      assert a[1..] == x[1..] + [Sep] + u && b[1..] == y[1..] + [Sep] + v;
      SeparatorOrder(x[1..], y[1..], u, v);
      assert x == [x[0]] + x[1..] && y == [y[0]] + y[1..];
    }
  }

  lemma {:induction false} PrefixOrder(p: string, x: string, y: string)
    ensures Less(p + x, p + y) <==> Less(x, y)
  {
    if p == [] {
      assert p + x == x && p + y == y;
    } else {
      assert (p + x)[1..] == p[1..] + x && (p + y)[1..] == p[1..] + y;
      PrefixOrder(p[1..], x, y);
    }
  }

  /** Keys sort exactly as Assignments do, and by slot where these are of the same Item and Member. */
  lemma KeyOrder(prefix: string, a: Assignment, b: Assignment)
    requires IsEncodable(a) && IsEncodable(b)
    ensures Less(AssignmentKey(prefix, a), AssignmentKey(prefix, b)) <==>
            CompareAssignment(a, b) < 0 || (CompareAssignment(a, b) == 0 && Less(Itoa(a.slot), Itoa(b.slot)))
  {
    hide Less, AboveSep, Itoa;
    var s, t := Itoa(a.slot), Itoa(b.slot);
    PrefixOrder(prefix, a.itemId + [Sep] + (a.zone + [Sep] + (a.suffix + [Sep] + s)),
                b.itemId + [Sep] + (b.zone + [Sep] + (b.suffix + [Sep] + t)));
    SeparatorOrder(a.itemId, b.itemId, a.zone + [Sep] + (a.suffix + [Sep] + s),
      b.zone + [Sep] + (b.suffix + [Sep] + t));
    SeparatorOrder(a.zone, b.zone, a.suffix + [Sep] + s, b.suffix + [Sep] + t);
    SeparatorOrder(a.suffix, b.suffix, s, t);
    CompareStringMeaning(a.itemId, b.itemId);
    CompareStringMeaning(a.zone, b.zone);
    CompareStringMeaning(a.suffix, b.suffix);
  }

  // ---------------------------------------------------------------------------
  // Decoding

  /** strings.Split on the separator. */
  function Split(s: string): (parts: seq<string>)
    ensures parts != []
  {
    if s == [] then [[]]
    else
      var rest := Split(s[1..]);
      if s[0] == Sep then [[]] + rest else [[s[0]] + rest[0]] + rest[1..]
  }

  function DigitValue(c: char): Option<nat> {
    if '0' <= c <= '9' then Some((c - '0') as nat) else None
  }

  function DigitsValue(s: string): Option<nat> {
    if s == [] then Some(0)
    else match (DigitsValue(s[..|s| - 1]), DigitValue(s[|s| - 1]))
      case (Some(n), Some(d)) => Some(10 * n + d)
      case _ => None
  }

  /** strconv.Atoi: decimal digits, with an optional sign. */
  function Atoi(s: string): Option<int> {
    if s == [] then None
    else if s[0] == '-' || s[0] == '+' then
      if |s| == 1 then None
      else match DigitsValue(s[1..])
        case None => None
        case Some(n) => var v: int := n; Some(if s[0] == '-' then -v else v)
    else match DigitsValue(s)
      case None => None
      case Some(n) => Some(n)
  }

  datatype Decoded = Decoded(itemId: string, zone: string, suffix: string, slot: int)

  /** The decoder of Assignment keys, behind their prefix. */
  function DecodeAssignment(key: string): Option<Decoded> {
    var p := Split(key);
    if |p| != 4 then None
    else match Atoi(p[3])
      case None => None
      case Some(slot) => Some(Decoded(p[0], p[1], p[2], slot))
  }

  lemma {:induction false} SplitAtSep(x: string, rest: string)
    requires AboveSep(x)
    ensures Split(x + [Sep] + rest) == [x] + Split(rest)
  {
    var s := x + [Sep] + rest;
    if x == [] {
      assert s[1..] == rest;
    } else {
      assert s[1..] == x[1..] + [Sep] + rest;
      SplitAtSep(x[1..], rest);
      assert s[0] == x[0] && x == [x[0]] + x[1..];
    }
  }

  lemma {:induction false} SplitWhole(x: string)
    requires AboveSep(x)
    ensures Split(x) == [x]
  {
    if x != [] {
      SplitWhole(x[1..]);
      assert x == [x[0]] + x[1..];
    }
  }

  lemma {:induction false} ItoaDigits(n: nat)
    ensures Itoa(n) != [] && AboveSep(Itoa(n)) && '0' <= Itoa(n)[0] <= '9'
    ensures DigitsValue(Itoa(n)) == Some(n)
  {
    if n < 10 {
      assert Itoa(n)[..0] == [];
    } else {
      ItoaDigits(n / 10);
      assert Itoa(n)[..|Itoa(n)| - 1] == Itoa(n / 10);
    }
  }

  /** A key decodes to the Assignment it encodes. */
  lemma KeyRoundTrip(a: Assignment)
    requires IsEncodable(a)
    ensures DecodeAssignment(AssignmentKey([], a)) == Some(Decoded(a.itemId, a.zone, a.suffix, a.slot))
  {
    var slot := Itoa(a.slot);
    ItoaDigits(a.slot);
    hide AboveSep, Split, Itoa, DigitsValue;
    assert AssignmentKey([], a) == a.itemId + [Sep] + (a.zone + [Sep] + (a.suffix + [Sep] + slot));
    SplitAtSep(a.itemId, a.zone + [Sep] + (a.suffix + [Sep] + slot));
    SplitAtSep(a.zone, a.suffix + [Sep] + slot);
    SplitAtSep(a.suffix, slot);
    SplitWhole(slot);
  }

  // ---------------------------------------------------------------------------
  // Joins of ordered keys

  ghost predicate ItemsAreSorted(items: seq<string>) {
    forall i, j :: 0 <= i < j < |items| ==> Less(items[i], items[j])
  }

  ghost predicate KeysAreSorted(prefix: string, assignments: seq<Assignment>) {
    forall i, j :: 0 <= i < j < |assignments| ==>
      Less(AssignmentKey(prefix, assignments[i]), AssignmentKey(prefix, assignments[j]))
  }

  /** The comparison by which Items and Assignments are joined. */
  function JoinOnItem(items: seq<string>, assignments: seq<Assignment>): Compare {
    (l: nat, r: nat) => if l < |items| && r < |assignments| then CompareString(items[l], assignments[r].itemId) else 0
  }

  lemma SortedByItem(prefix: string, a: Assignment, b: Assignment)
    requires IsEncodable(a) && IsEncodable(b) && Less(AssignmentKey(prefix, a), AssignmentKey(prefix, b))
    ensures !Less(b.itemId, a.itemId)
  {
    hide Less;
    KeyOrder(prefix, a, b);
    CompareStringMeaning(a.itemId, b.itemId);
  }

  lemma CompareMonotone(x: string, y: string, z: string)
    requires !Less(z, y)
    ensures CompareString(x, y) >= CompareString(x, z)
    ensures CompareString(y, x) <= CompareString(z, x)
  {
    hide Less;
    CompareStringMeaning(x, y);
    CompareStringMeaning(x, z);
    CompareStringMeaning(y, z);
    CompareStringMeaning(y, x);
    CompareStringMeaning(z, x);
    if Less(x, y) && Less(y, z) {
      LessIsTransitive(x, y, z);
    }
    if Less(y, z) && Less(z, x) {
      LessIsTransitive(y, z, x);
    }
  }

  /** As the key space is sorted by key, Items and Assignments can be joined, and converge can partition them. */
  lemma JoinIsOrdered(prefix: string, items: seq<string>, assignments: seq<Assignment>)
    requires ItemsAreSorted(items) && KeysAreSorted(prefix, assignments)
    requires forall i :: 0 <= i < |assignments| ==> IsEncodable(assignments[i])
    ensures IsOrdered(JoinOnItem(items, assignments), |items|, |assignments|)
    ensures LeftIsUnique(JoinOnItem(items, assignments), |items|, |assignments|)
  {
    hide Less, AssignmentKey, IsEncodable;
    var compare := JoinOnItem(items, assignments);
    forall l, r, s | 0 <= l < |items| && 0 <= r <= s < |assignments| ensures compare(l, r) >= compare(l, s) {
      if r < s {
        SortedByItem(prefix, assignments[r], assignments[s]);
        CompareMonotone(items[l], assignments[r].itemId, assignments[s].itemId);
      }
    }
    forall l, k, r | 0 <= l <= k < |items| && 0 <= r < |assignments| ensures compare(l, r) <= compare(k, r) {
      if l < k {
        CompareStringMeaning(items[l], items[k]);
        CompareMonotone(assignments[r].itemId, items[l], items[k]);
      }
    }
    forall l, k, r | 0 <= l < k < |items| && 0 <= r < |assignments| && compare(l, r) == 0 ensures compare(k, r) == 1 {
      CompareStringMeaning(items[l], assignments[r].itemId);
      CompareStringMeaning(items[k], assignments[r].itemId);
    }
  }
}
