/**
 `scalar_filter_match`: the in-kernel evaluator over a flat array of conditions,
 and what it computes on an array laid out group by group.
 */
module KernelFilter {
  import opened Common
  import opened FilterDnf

  /** How a field is reached: `size` bytes, and `bits` of them for a bit-field. Reading it may fail. */
  datatype Access = Access(path: seq<nat>, size: nat, bits: nat)

  /** One row of the array: the comparison is a code from 1 to 6. */
  datatype Condition = Condition(access: Access, comparison: nat, value: u64, signed: bool, group: nat)

  /** A comparison before it has a group. */
  datatype Test = Test(access: Access, comparison: nat, value: u64, signed: bool)

  type Reader = Access -> Option<u64>

  const MAX_PROJECTIONS: nat := 4

  // ----- one comparison -----

  const TWO_TO_64: nat := U64_MAX + 1

  /** The low `bits` bits read as two's complement. */
  function SignExtend(value: u64, modulus: nat): int
    requires modulus > 0
  {
    var low := value % modulus;
    if low >= modulus / 2 then low - modulus else low
  }

  function SignedScalar(value: u64, size: nat): int {
    match size
    case 1 => SignExtend(value, 0x100)
    case 2 => SignExtend(value, 0x1_0000)
    case 4 => SignExtend(value, 0x1_0000_0000)
    case 8 => SignExtend(value, TWO_TO_64)
    case _ => 0
  }

  predicate IsComparison(code: nat) {
    1 <= code <= 6
  }

  predicate Compare(code: nat, left: int, right: int)
    requires IsComparison(code)
  {
    match code
    case 1 => left == right
    case 2 => left != right
    case 3 => left < right
    case 4 => left <= right
    case 5 => left > right
    case _ => left >= right
  }

  function Judge(t: Test, read: Reader): Truth
    requires IsComparison(t.comparison)
  {
    match read(t.access)
    case None => Unknown
    case Some(observed) =>
      var holds :=
        if t.signed
        then Compare(t.comparison, SignedScalar(observed, t.access.size), SignExtend(t.value, TWO_TO_64))
        else Compare(t.comparison, observed, t.value);
      if holds then Yes else No
  }

  function TestOf(c: Condition): Test {
    Test(c.access, c.comparison, c.value, c.signed)
  }

  // ----- the evaluator -----

  /** The loop's variables, or the verdict it has returned with. */
  datatype Progress = Going(current: nat, matched: Truth, unknown: bool) | Done(verdict: int)

  function Step(row: Condition, read: Reader, p: Progress): Progress {
    if p.Done? then p
    else if row.group >= MAX_PROJECTIONS || (row.group != p.current && row.group != p.current + 1) then Done(-1)
    else if row.group != p.current && p.matched == Yes then Done(1)
    else
      var m := if row.group == p.current then p.matched else Yes;
      var u := p.unknown || (row.group != p.current && p.matched == Unknown);
      if m == No then Going(row.group, No, u)
      else if read(row.access).None? then Going(row.group, Unknown, u)
      else if !IsComparison(row.comparison) then Done(-1)
      else Going(row.group, Both(m, Judge(TestOf(row), read)), u)
  }

  function Run(rows: seq<Condition>, read: Reader, p: Progress): Progress {
    if rows == [] then p else Run(rows[1..], read, Step(rows[0], read, p))
  }

  /** 1 matched, 0 not matched, -1 could not tell. */
  function Verdict(p: Progress): int {
    if p.Done? then p.verdict
    else if p.matched == Yes then 1
    else if p.matched == Unknown || p.unknown then -1
    else 0
  }

  function KernelVerdict(rows: seq<Condition>, read: Reader): int {
    Verdict(Run(rows, read, Going(0, Yes, false)))
  }

  lemma {:induction false} DoneStays(rows: seq<Condition>, read: Reader, verdict: int)
    ensures Run(rows, read, Done(verdict)) == Done(verdict)
  {
    if rows != [] {
      DoneStays(rows[1..], read, verdict);
    }
  }

  method ScalarFilterMatch(read: Reader, count: nat, rows: seq<Condition>) returns (verdict: int)
    requires |rows| == MAX_PROJECTIONS
    ensures verdict == if count > MAX_PROJECTIONS then -1 else KernelVerdict(rows[..count], read)
  {
    var currentGroup: nat := 0;
    var groupMatch := 1;
    var unknownGroup := false;
    if count > MAX_PROJECTIONS {
      return -1;
    }
    ghost var all := rows[..count];
    var index := 0;
    while index < MAX_PROJECTIONS && index < count
      invariant 0 <= index <= count && -1 <= groupMatch <= 1
      invariant Run(all, read, Going(0, Yes, false))
             == Run(all[index..], read, Going(currentGroup, ToTruth(groupMatch), unknownGroup))
      decreases count - index
    {
      var row := rows[index];
      assert all[index..][0] == row && all[index..][1..] == all[index + 1..];
      index := index + 1;
      DoneStays(all[index..], read, -1);
      DoneStays(all[index..], read, 1);
      if row.group >= MAX_PROJECTIONS {
        return -1;
      }
      if row.group != currentGroup {
        if row.group != currentGroup + 1 {
          return -1;
        }
        if groupMatch == 1 {
          return 1;
        }
        if groupMatch < 0 {
          unknownGroup := true;
        }
        currentGroup := row.group;
        groupMatch := 1;
      }
      if groupMatch == 0 {
        continue;
      }
      var observed := read(row.access);
      if observed.None? {
        groupMatch := -1;
        continue;
      }
      if !IsComparison(row.comparison) {
        return -1;
      }
      var left := if row.signed then SignedScalar(observed.value, row.access.size) else observed.value;
      var right := if row.signed then SignExtend(row.value, TWO_TO_64) else row.value;
      if !Compare(row.comparison, left, right) {
        groupMatch := 0;
      }
    }
    assert all[count..] == [];
    if groupMatch == 1 {
      return 1;
    }
    if groupMatch < 0 {
      unknownGroup := true;
    }
    return if unknownGroup then -1 else 0;
  }

  function ToTruth(groupMatch: int): Truth {
    if groupMatch == 1 then Yes else if groupMatch == 0 then No else Unknown
  }

  // ----- the array the compiler lays out -----

  function Rows(group: seq<Test>, index: nat): (r: seq<Condition>)
    ensures |r| == |group|
  {
    if group == [] then [] else [RowOf(group[0], index)] + Rows(group[1..], index)
  }

  function Flatten(groups: Groups<Test>, index: nat): seq<Condition> {
    if groups == [] then [] else Rows(groups[0], index) + Flatten(groups[1..], index + 1)
  }

  predicate Comparisons(group: seq<Test>) {
    forall i :: 0 <= i < |group| ==> IsComparison(group[i].comparison)
  }

  predicate Runnable(groups: Groups<Test>) {
    forall i :: 0 <= i < |groups| ==> groups[i] != [] && Comparisons(groups[i])
  }

  /** A test's truth value, where it is a comparison the kernel knows. */
  function Decide(t: Test, read: Reader): Truth {
    if IsComparison(t.comparison) then Judge(t, read) else Unknown
  }

  function Atom(read: Reader): Test -> Truth {
    t => Decide(t, read)
  }

  function Code(t: Truth): int {
    match t
    case Yes => 1
    case No => 0
    case Unknown => -1
  }

  lemma BothAssociates(a: Truth, b: Truth, c: Truth)
    ensures Both(Both(a, b), c) == Both(a, Both(b, c)) && Both(a, Yes) == a
  {
  }

  function RowOf(t: Test, index: nat): (row: Condition)
    ensures TestOf(row) == t
  {
    Condition(t.access, t.comparison, t.value, t.signed, index)
  }

  lemma RowsSplit(group: seq<Test>, index: nat, tail: seq<Condition>)
    requires group != []
    ensures Rows(group, index) + tail == [RowOf(group[0], index)] + (Rows(group[1..], index) + tail)
  {
  }

  lemma StepOnRow(t: Test, read: Reader, index: nat, m: Truth, u: bool)
    requires index < MAX_PROJECTIONS && IsComparison(t.comparison)
    ensures Step(RowOf(t, index), read, Going(index, m, u)) == Going(index, Both(m, Decide(t, read)), u)
  {
  }

  lemma RunOne(row: Condition, rows: seq<Condition>, read: Reader, p: Progress)
    ensures Run([row] + rows, read, p) == Run(rows, read, Step(row, read, p))
  {
    assert ([row] + rows)[1..] == rows;
  }

  /** The rows of one group, with the group already entered. */
  lemma {:induction false} RunGroup(group: seq<Test>, tail: seq<Condition>, read: Reader, index: nat, m: Truth, u: bool)
    requires index < MAX_PROJECTIONS && Comparisons(group)
    ensures Run(Rows(group, index) + tail, read, Going(index, m, u))
         == Run(tail, read, Going(index, Both(m, All(group, Atom(read))), u))
  {
    if group == [] {
      assert Rows(group, index) + tail == tail;
    } else {
      var first := Decide(group[0], read);
      RowsSplit(group, index, tail);
      RunOne(RowOf(group[0], index), Rows(group[1..], index) + tail, read, Going(index, m, u));
      StepOnRow(group[0], read, index, m, u);
      RunGroup(group[1..], tail, read, index, Both(m, first), u);
      BothAssociates(m, first, All(group[1..], Atom(read)));
    }
  }

  /** The first row of a group closes the group before it. */
  lemma {:induction false} EnterGroup(rows: seq<Condition>, read: Reader, current: nat, m: Truth, u: bool)
    requires rows != [] && rows[0].group == current + 1 < MAX_PROJECTIONS
    ensures Run(rows, read, Going(current, m, u))
         == if m == Yes then Done(1) else Run(rows, read, Going(current + 1, Yes, u || m == Unknown))
  {
    var v := u || m == Unknown;
    if m == Yes {
      DoneStays(rows[1..], read, 1);
    } else {
      assert Step(rows[0], read, Going(current, m, u)) == Step(rows[0], read, Going(current + 1, Yes, v));
    }
  }

  /** What the groups closed so far amount to, when none of them matched. */
  function SoFar(u: bool): Truth {
    if u then Unknown else No
  }

  lemma EitherShuffles(u: bool, m: Truth, first: Truth, rest: Truth)
    ensures m != Yes ==>
      Either(Either(SoFar(u || m == Unknown), first), rest) == Either(Either(SoFar(u), m), Either(first, rest))
    ensures Either(Either(SoFar(u), Yes), rest) == Yes
    ensures Either(Either(SoFar(u), m), No) == Either(SoFar(u), m)
    ensures Either(Either(SoFar(false), first), rest) == Either(first, rest)
  {
  }

  lemma VerdictOfGoing(current: nat, m: Truth, u: bool)
    ensures Verdict(Going(current, m, u)) == Code(Either(SoFar(u), m))
  {
  }

  lemma FlattenSplit(groups: Groups<Test>, index: nat, read: Reader)
    requires groups != [] && Runnable(groups)
    ensures Flatten(groups, index) == Rows(groups[0], index) + Flatten(groups[1..], index + 1)
    ensures Any(groups, Atom(read)) == Either(All(groups[0], Atom(read)), Any(groups[1..], Atom(read)))
    ensures Comparisons(groups[0]) && Runnable(groups[1..])
    ensures var rows := Rows(groups[0], index) + Flatten(groups[1..], index + 1); rows != [] && rows[0].group == index
  {
  }

  /** The remaining groups, after one that ended with `m`. */
  lemma {:induction false} RunGroups(groups: Groups<Test>, read: Reader, current: nat, m: Truth, u: bool)
    requires Runnable(groups) && current + |groups| < MAX_PROJECTIONS
    ensures Verdict(Run(Flatten(groups, current + 1), read, Going(current, m, u)))
         == Code(Either(Either(SoFar(u), m), Any(groups, Atom(read))))
  {
    if groups == [] {
      VerdictOfGoing(current, m, u);
      EitherShuffles(u, m, No, No);
    } else {
      var rest := Flatten(groups[1..], current + 2);
      var v, first := u || m == Unknown, All(groups[0], Atom(read));
      FlattenSplit(groups, current + 1, read);
      EnterGroup(Rows(groups[0], current + 1) + rest, read, current, m, u);
      RunGroup(groups[0], rest, read, current + 1, Yes, v);
      BothAssociates(Yes, first, Yes);
      RunGroups(groups[1..], read, current + 1, first, v);
      EitherShuffles(u, m, first, Any(groups[1..], Atom(read)));
      EitherShuffles(u, m, first, Any(groups, Atom(read)));
    }
  }

  lemma EitherStart(first: Truth, rest: Truth)
    ensures Both(Yes, first) == first && Either(Either(SoFar(false), first), rest) == Either(first, rest)
  {
  }

  /** The evaluator computes the Kleene value of the groups, whatever can and cannot be read. */
  lemma RunIsValue(groups: Groups<Test>, read: Reader)
    requires groups != [] && Runnable(groups) && |groups| <= MAX_PROJECTIONS
    ensures KernelVerdict(Flatten(groups, 0), read) == Code(Any(groups, Atom(read)))
  {
    var first, rest := All(groups[0], Atom(read)), Flatten(groups[1..], 1);
    FlattenSplit(groups, 0, read);
    EitherStart(first, Any(groups[1..], Atom(read)));
    RunGroup(groups[0], rest, read, 0, Yes, false);
    RunGroups(groups[1..], read, 0, first, false);
  }
}
