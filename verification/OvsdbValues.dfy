/** OVSDB column values, the conditions that select rows and the mutations that change them. */
module OvsdbValues {
  import opened Basics

  /** A decoded JSON value. */
  datatype Value =
    | Null
    | Bool(b: bool)
    | Num(n: real)
    | Str(s: string)
    | Arr(elems: seq<Value>)
    | Obj(fields: map<string, Value>)

  type Row = map<string, Value>

  /** How a value prints; comparisons that are not numeric go by this text. */
  type Text = Value -> string

  /** A two-element array whose first element is a tag. */
  predicate Tagged(v: Value, tag: string)
  {
    v.Arr? && |v.elems| == 2 && v.elems[0] == Str(tag)
  }

  function UuidRef(id: string): Value
  {
    Arr([Str("uuid"), Str(id)])
  }

  function SetOf(elems: seq<Value>): Value
  {
    Arr([Str("set"), Arr(elems)])
  }

  predicate IsSet(v: Value)
  {
    Tagged(v, "set") && v.elems[1].Arr?
  }

  function StrOf(v: Value): string
  {
    if v.Str? then v.s else ""
  }

  /** The named columns a row has, and its uuid; all columns when none are named. */
  function FilterColumns(row: Row, columns: seq<string>): Row
  {
    if columns == [] then row else map c | c in row && (c in columns || c == "_uuid") :: row[c]
  }

  // ---- Conditions ------------------------------------------------------------------------------

  /** A uuid reference compares by its id, anything else by itself. */
  function Normalize(v: Value): Value
  {
    if Tagged(v, "uuid") then v.elems[1] else v
  }

  /** Whether `s` comes before `t` in lexicographic order. */
  predicate Before(s: string, t: string)
  {
    t != "" && (s == "" || s[0] < t[0] || (s[0] == t[0] && Before(s[1..], t[1..])))
  }

  function Compare(text: Text, a: Value, b: Value): int
  {
    if a.Num? && b.Num? then
      if a.n < b.n then -1 else if a.n > b.n then 1 else 0
    else
      if Before(text(a), text(b)) then -1 else if Before(text(b), text(a)) then 1 else 0
  }

  predicate SetIncludes(text: Text, actual: Value, expected: Value)
  {
    if IsSet(actual) then
      exists e :: e in actual.elems[1].elems && text(Normalize(e)) == text(Normalize(expected))
    else
      text(Normalize(actual)) == text(Normalize(expected))
  }

  predicate EvalCondition(text: Text, actual: Value, fn: string, expected: Value)
  {
    var order := Compare(text, Normalize(actual), Normalize(expected));
    match fn
    case "==" => order == 0
    case "!=" => order != 0
    case "<" => order < 0
    case ">" => order > 0
    case "<=" => order <= 0
    case ">=" => order >= 0
    case "includes" => SetIncludes(text, actual, expected)
    case "excludes" => !SetIncludes(text, actual, expected)
    case _ => false
  }

  predicate MatchOne(text: Text, row: Row, cond: Value)
  {
    && cond.Arr? && |cond.elems| == 3
    && var column, fn := StrOf(cond.elems[0]), StrOf(cond.elems[1]);
       if column in row then EvalCondition(text, row[column], fn, cond.elems[2]) else fn == "!="
  }

  /** A row matches when it meets every condition; no conditions match every row. */
  predicate MatchWhere(text: Text, row: Row, conds: seq<Value>)
  {
    forall i :: 0 <= i < |conds| ==> MatchOne(text, row, conds[i])
  }

  // ---- Mutations -------------------------------------------------------------------------------

  datatype Reason =
    | UnknownTable | UnknownOperation | InvalidMutation | UnknownMutator | NotNumeric | ByZero

  /** What mutating a row in place leaves behind: the row as far as it got, and how it ended. A modulus
      that truncates to zero is not caught by the zero test and divides by zero. */
  datatype RowOutcome = Mutated(row: Row) | Rejected(row: Row, why: Reason) | Panicked(row: Row)

  /** The remainder that goes with division toward zero. */
  function Rem(a: int, b: int): int
    requires b != 0
  {
    if a >= 0 then a % b else -((-a) % b)
  }

  function Product(a: real, b: real): real { a * b }

  function SetInsert(row: Row, column: string, current: Value, v: Value): Row
  {
    row[column :=
      if IsSet(current) then SetOf(current.elems[1].elems + [v])
      else if current.Null? then SetOf([v])
      else SetOf([current, v])]
  }

  function Without(text: Text, elems: seq<Value>, key: string): seq<Value>
  {
    if elems == [] then []
    else (if text(Normalize(elems[0])) != key then [elems[0]] else []) + Without(text, elems[1..], key)
  }

  function SetDelete(text: Text, row: Row, column: string, current: Value, v: Value): Row
  {
    if IsSet(current) then row[column := SetOf(Without(text, current.elems[1].elems, text(Normalize(v))))]
    else row
  }

  function Mutate(text: Text, row: Row, column: string, op: string, v: Value): RowOutcome
  {
    var current := if column in row then row[column] else Null;
    var numeric := current.Num? && v.Num?;
    match op
    case "+=" =>
      Mutated(if numeric then row[column := Num(current.n + v.n)] else SetInsert(row, column, current, v))
    case "-=" =>
      Mutated(if numeric then row[column := Num(current.n - v.n)] else SetDelete(text, row, column, current, v))
    case "*=" =>
      if numeric then Mutated(row[column := Num(Product(current.n, v.n))]) else Rejected(row, NotNumeric)
    case "/=" =>
      if !numeric then Rejected(row, NotNumeric)
      else if v.n == 0.0 then Rejected(row, ByZero)
      else Mutated(row[column := Num(current.n / v.n)])
    case "%=" =>
      if !numeric then Rejected(row, NotNumeric)
      else if v.n == 0.0 then Rejected(row, ByZero)
      else if Trunc(v.n) == 0 then Panicked(row)
      else Mutated(row[column := Num(Rem(Trunc(current.n), Trunc(v.n)) as real)])
    case "insert" => Mutated(SetInsert(row, column, current, v))
    case "delete" => Mutated(SetDelete(text, row, column, current, v))
    case _ => Rejected(row, UnknownMutator)
  }

  /** One mutation of an operation, as it came in. */
  function MutateBy(text: Text, row: Row, m: Value): RowOutcome
  {
    if m.Arr? && |m.elems| == 3 then Mutate(text, row, StrOf(m.elems[0]), StrOf(m.elems[1]), m.elems[2])
    else Rejected(row, InvalidMutation)
  }

  /** All mutations of an operation in order, up to the first that does not go through. */
  function MutateAll(text: Text, row: Row, ms: seq<Value>): RowOutcome
  {
    if ms == [] then Mutated(row)
    else
      var init := MutateAll(text, row, ms[..|ms| - 1]);
      if init.Mutated? then MutateBy(text, init.row, ms[|ms| - 1]) else init
  }

  /** A modulus that is not zero but truncates to zero. */
  predicate SmallModulus(m: Value)
  {
    && m.Arr? && |m.elems| == 3 && StrOf(m.elems[1]) == "%="
    && m.elems[2].Num? && m.elems[2].n != 0.0 && Trunc(m.elems[2].n) == 0
  }

  /** Mutation `i` is reached, is such a modulus, and finds a number in its column. */
  predicate PanicsAt(text: Text, row: Row, ms: seq<Value>, i: nat)
    requires i < |ms|
  {
    var init := MutateAll(text, row, ms[..i]);
    && init.Mutated? && SmallModulus(ms[i])
    && var column := StrOf(ms[i].elems[0]);
       column in init.row && init.row[column].Num?
  }

  lemma {:induction false} PanicsInPrefix(text: Text, row: Row, ms: seq<Value>, n: nat, i: nat)
    requires i < n <= |ms|
    ensures PanicsAt(text, row, ms[..n], i) <==> PanicsAt(text, row, ms, i)
  {
    hide MutateAll, SmallModulus;
    assert ms[..n][..i] == ms[..i];
  }

  lemma NothingPanics(text: Text, row: Row)
    ensures !MutateAll(text, row, []).Panicked?
  {
  }

  /** The mutations of a row bring the server down if and only if one of them is a modulus that truncates to
      zero, it is reached, and its column then holds a number. */
  lemma {:induction false} PanicIff(text: Text, row: Row, ms: seq<Value>)
    ensures MutateAll(text, row, ms).Panicked? <==> exists i: nat :: i < |ms| && PanicsAt(text, row, ms, i)
  {
    hide MutateAll, PanicsAt;
    if ms == [] {
      NothingPanics(text, row);
    } else {
      var n := |ms| - 1;
      PanicIff(text, row, ms[..n]);
      LastPanics(text, row, ms);
      if MutateAll(text, row, ms[..n]).Panicked? {
        var i: nat :| i < n && PanicsAt(text, row, ms[..n], i);
        PanicsInPrefix(text, row, ms, n, i);
      } else if i: nat :| i < n && PanicsAt(text, row, ms, i) {
        PanicsInPrefix(text, row, ms, n, i);
      }
    }
  }

  lemma {:induction false} LastPanics(text: Text, row: Row, ms: seq<Value>)
    requires ms != []
    ensures MutateAll(text, row, ms).Panicked? <==>
            MutateAll(text, row, ms[..|ms| - 1]).Panicked? || PanicsAt(text, row, ms, |ms| - 1)
  {
    hide SetInsert, SetDelete, Rem;
  }

  /** And it does so with the mutations before it already written into the row. */
  lemma {:induction false} SmallModulusPanics(text: Text)
    ensures
      var add, mod := Arr([Str("x"), Str("+="), Num(1.0)]), Arr([Str("x"), Str("%="), Num(0.5)]);
      MutateAll(text, map["x" := Num(1.0)], [add, mod]) == Panicked(map["x" := Num(2.0)])
  {
    var add, mod := Arr([Str("x"), Str("+="), Num(1.0)]), Arr([Str("x"), Str("%="), Num(0.5)]);
    var row: Row := map["x" := Num(1.0)];
    assert [add, mod][..1] == [add] && [add][..0] == [];
    assert MutateAll(text, row, [add]) == Mutated(map["x" := Num(2.0)]) by {
      assert MutateAll(text, row, []) == Mutated(row);
      assert row["x" := Num(2.0)] == map["x" := Num(2.0)];
    }
  }

  /** A mutation that adds to the row's own uuid column and so makes a set of it. */
  predicate GrowsUuid(m: Value)
  {
    && m.Arr? && |m.elems| == 3 && StrOf(m.elems[0]) == "_uuid"
    && (StrOf(m.elems[1]) == "+=" || StrOf(m.elems[1]) == "insert")
  }

  lemma {:induction false} MutateKeeps(text: Text, row: Row, column: string, op: string, v: Value, other: string)
    requires other in row && column != other
    ensures other in Mutate(text, row, column, op, v).row && Mutate(text, row, column, op, v).row[other] == row[other]
  {
    hide Trunc, Rem, Without, IsSet, SetOf;
  }

  /** A reference in the uuid column becomes a set exactly if a mutation adds to it. */
  lemma {:induction false} ReferenceMutated(text: Text, row: Row, m: Value, id: string)
    requires "_uuid" in row && row["_uuid"] == UuidRef(id)
    ensures
      var r := MutateBy(text, row, m);
      && "_uuid" in r.row
      && (if GrowsUuid(m) then r.Mutated? && IsSet(r.row["_uuid"]) else r.row["_uuid"] == UuidRef(id))
  {
    hide Trunc, Rem, Without;
    if m.Arr? && |m.elems| == 3 && StrOf(m.elems[0]) != "_uuid" {
      hide Mutate;
      MutateKeeps(text, row, StrOf(m.elems[0]), StrOf(m.elems[1]), m.elems[2], "_uuid");
    }
  }

  /** A set in the uuid column stays a set. */
  lemma {:induction false} SetMutated(text: Text, row: Row, m: Value)
    requires "_uuid" in row && IsSet(row["_uuid"])
    ensures "_uuid" in MutateBy(text, row, m).row && IsSet(MutateBy(text, row, m).row["_uuid"])
  {
    hide Trunc, Rem, Without;
    if m.Arr? && |m.elems| == 3 && StrOf(m.elems[0]) != "_uuid" {
      hide Mutate;
      MutateKeeps(text, row, StrOf(m.elems[0]), StrOf(m.elems[1]), m.elems[2], "_uuid");
    }
  }

  /** Mutations that go through leave the uuid of a row alone if and only if none of them adds to it: nothing
      else can write it, and a set never becomes a reference again. */
  lemma {:induction false} UuidKeptIff(text: Text, row: Row, ms: seq<Value>, id: string)
    requires "_uuid" in row && row["_uuid"] == UuidRef(id)
    ensures
      var r := MutateAll(text, row, ms);
      && "_uuid" in r.row
      && ((forall m :: m in ms ==> !GrowsUuid(m)) ==> r.row["_uuid"] == UuidRef(id))
      && ((exists m :: m in ms && GrowsUuid(m)) && r.Mutated? ==> IsSet(r.row["_uuid"]))
      && (r.Mutated? ==> (r.row["_uuid"] == UuidRef(id) <==> forall m :: m in ms ==> !GrowsUuid(m)))
  {
    hide MutateBy, GrowsUuid;
    if ms != [] {
      var init, last := ms[..|ms| - 1], ms[|ms| - 1];
      assert forall m :: m in ms <==> m in init || m == last;
      UuidKeptIff(text, row, init, id);
      var r := MutateAll(text, row, init);
      if r.Mutated? {
        if forall m :: m in init ==> !GrowsUuid(m) {
          ReferenceMutated(text, r.row, last, id);
        } else {
          SetMutated(text, r.row, last);
        }
      }
    }
  }

  // ---- Named UUIDs -----------------------------------------------------------------------------

  predicate IsNamed(v: Value)
  {
    Tagged(v, "named-uuid") && v.elems[1].Str?
  }

  /** Named references replaced by the uuids they stand for, at the top or inside sets to any depth. */
  function Resolve(v: Value, named: map<string, string>): Value
    decreases v, 1
  {
    if IsNamed(v) && v.elems[1].s in named then UuidRef(named[v.elems[1].s])
    else if IsSet(v) then SetOf(ResolveAll(v.elems[1].elems, named))
    else v
  }

  function ResolveAll(vs: seq<Value>, named: map<string, string>): (r: seq<Value>)
    ensures |r| == |vs|
    ensures forall i :: 0 <= i < |vs| ==> r[i] == Resolve(vs[i], named)
    decreases vs, 0
  {
    if vs == [] then [] else [Resolve(vs[0], named)] + ResolveAll(vs[1..], named)
  }

  function ResolveRow(row: Row, named: map<string, string>): Row
  {
    map column | column in row :: Resolve(row[column], named)
  }

  function ResolveWhere(conds: seq<Value>, named: map<string, string>): (r: seq<Value>)
    ensures |r| == |conds|
  {
    seq(|conds|, i requires 0 <= i < |conds| =>
      var c := conds[i];
      if c.Arr? && |c.elems| == 3 then Arr([c.elems[0], c.elems[1], Resolve(c.elems[2], named)]) else c)
  }

  /** The value inside nested sets at a path of element positions, if the path leads anywhere. */
  function AtPath(v: Value, path: seq<nat>): Option<Value>
    decreases |path|
  {
    if path == [] then Some(v)
    else if IsSet(v) && path[0] < |v.elems[1].elems| then AtPath(v.elems[1].elems[path[0]], path[1..])
    else None
  }

  /** Resolution, position by position: it keeps the shape, turns every named reference whose name is
      known into that uuid, and leaves every other value that is not itself a set exactly as it was. */
  lemma {:induction false} ResolveAtPath(v: Value, named: map<string, string>, path: seq<nat>)
    ensures AtPath(Resolve(v, named), path).Some? <==> AtPath(v, path).Some?
    ensures AtPath(v, path).Some? ==>
              var was, now := AtPath(v, path).value, AtPath(Resolve(v, named), path).value;
              && (IsNamed(was) && was.elems[1].s in named ==> now == UuidRef(named[was.elems[1].s]))
              && (!(IsNamed(was) && was.elems[1].s in named) && !IsSet(was) ==> now == was)
              && (IsSet(was) ==> IsSet(now) && |now.elems[1].elems| == |was.elems[1].elems|)
    decreases |path|
  {
    if path != [] && IsSet(v) && path[0] < |v.elems[1].elems| {
      ResolveAtPath(v.elems[1].elems[path[0]], named, path[1..]);
    }
  }

  /** Resolving twice is resolving once with both sets of names, the earlier ones taking precedence. In
      particular resolution is idempotent, and names learned later change nothing already resolved. */
  lemma {:induction false} ResolveTwice(v: Value, first: map<string, string>, second: map<string, string>)
    ensures Resolve(Resolve(v, first), second) == Resolve(v, second + first)
    decreases v
  {
    if IsSet(v) {
      var es := v.elems[1].elems;
      forall i | 0 <= i < |es|
        ensures Resolve(Resolve(es[i], first), second) == Resolve(es[i], second + first)
      {
        ResolveTwice(es[i], first, second);
      }
      assert ResolveAll(ResolveAll(es, first), second) == ResolveAll(es, second + first);
    }
  }

  lemma {:induction false} ResolveIdempotent(v: Value, named: map<string, string>)
    ensures Resolve(Resolve(v, named), named) == Resolve(v, named)
  {
    ResolveTwice(v, named, named);
    assert named + named == named;
  }
}
