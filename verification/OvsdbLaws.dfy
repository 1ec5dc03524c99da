/** Laws of the row conditions and mutations that do not mention how they are computed. */
module OvsdbLaws {
  import opened Basics
  import opened OvsdbValues

  // ---- Conditions ----------------------------------------------------------------------------------

  lemma {:induction false} BeforeIsOrder(s: string, t: string)
    ensures s == t ==> !Before(s, t)
    ensures s != t ==> (Before(s, t) <==> !Before(t, s))
  {
    if s != "" && t != "" {
      BeforeIsOrder(s[1..], t[1..]);
      assert s == [s[0]] + s[1..] && t == [t[0]] + t[1..];
    }
  }

  /** Comparing the other way round gives the opposite order. */
  lemma CompareOpposite(text: Text, a: Value, b: Value)
    ensures Compare(text, a, b) == -Compare(text, b, a)
  {
    BeforeIsOrder(text(a), text(b));
  }

  /** Of less, equal and greater exactly one holds, the other functions are their complements, and the
      order conditions turn round with their arguments. */
  lemma ConditionsAgree(text: Text, a: Value, b: Value)
    ensures
      var less, equal, greater :=
        EvalCondition(text, a, "<", b), EvalCondition(text, a, "==", b), EvalCondition(text, a, ">", b);
      && (less || equal || greater)
      && !(less && equal) && !(equal && greater) && !(less && greater)
      && (EvalCondition(text, a, "!=", b) <==> !equal)
      && (EvalCondition(text, a, "<=", b) <==> !greater)
      && (EvalCondition(text, a, ">=", b) <==> !less)
      && (less <==> EvalCondition(text, b, ">", a))
      && (equal <==> EvalCondition(text, b, "==", a))
      && (EvalCondition(text, a, "excludes", b) <==> !EvalCondition(text, a, "includes", b))
  {
    CompareOpposite(text, Normalize(a), Normalize(b));
  }

  /** Position `i` is where `t` goes on after `s` has ended, or where the two first differ with the smaller
      character in `s`. */
  predicate SortsAt(s: string, t: string, i: nat)
  {
    i <= |s| && i < |t| && s[..i] == t[..i] && (i == |s| || s[i] < t[i])
  }

  lemma SamePrefix(s: string, t: string, i: nat)
    requires 0 < i <= |s| && i <= |t| && s[..i] == t[..i]
    ensures s[0] == t[0]
  {
    assert s[0] == s[..i][0] && t[0] == t[..i][0];
  }

  /** Text is ordered by its first difference. */
  lemma {:induction false} TextOrder(s: string, t: string)
    ensures Before(s, t) <==> exists i: nat :: SortsAt(s, t, i)
  {
    if s == "" || t == "" || s[0] != t[0] {
      assert Before(s, t) ==> SortsAt(s, t, 0);
      forall i: nat | SortsAt(s, t, i)
        ensures i == 0
      {
        if s != "" && i > 0 {
          SamePrefix(s, t, i);
        }
      }
    } else {
      TextOrder(s[1..], t[1..]);
      if i: nat :| SortsAt(s[1..], t[1..], i) {
        assert s[..i + 1] == [s[0]] + s[1..][..i] && t[..i + 1] == [t[0]] + t[1..][..i];
        assert SortsAt(s, t, i + 1);
      }
      if i: nat :| SortsAt(s, t, i) {
        assert i > 0;
        assert s[1..][..i - 1] == s[..i][1..] && t[1..][..i - 1] == t[..i][1..];
        assert SortsAt(s[1..], t[1..], i - 1);
      }
    }
  }

  /** The six comparison functions on two numbers. */
  predicate Relates(fn: string, a: real, b: real)
  {
    match fn
    case "==" => a == b
    case "!=" => a != b
    case "<" => a < b
    case ">" => a > b
    case "<=" => a <= b
    case ">=" => a >= b
    case _ => false
  }

  predicate Comparison(fn: string)
  {
    fn in {"==", "!=", "<", ">", "<=", ">="}
  }

  /** On numbers the comparison functions are those of the numbers. */
  lemma {:induction false} NumbersCompare(text: Text, a: real, b: real)
    ensures EvalCondition(text, Num(a), "<", Num(b)) <==> a < b
    ensures EvalCondition(text, Num(a), ">", Num(b)) <==> a > b
    ensures EvalCondition(text, Num(a), "<=", Num(b)) <==> a <= b
    ensures EvalCondition(text, Num(a), ">=", Num(b)) <==> a >= b
    ensures EvalCondition(text, Num(a), "==", Num(b)) <==> a == b
    ensures EvalCondition(text, Num(a), "!=", Num(b)) <==> a != b
    ensures forall fn :: Comparison(fn) ==> (EvalCondition(text, Num(a), fn, Num(b)) <==> Relates(fn, a, b))
  {
  }

  /** What a value is compared by: what stands behind a uuid tag, or the value itself. */
  predicate ComparedBy(v: Value, w: Value)
  {
    if v.Arr? && |v.elems| == 2 && v.elems[0] == Str("uuid") then w == v.elems[1] else w == v
  }

  /** Values that are not both numbers are compared as text, references by the uuid they carry. */
  lemma {:induction false} TextsCompare(text: Text, a: Value, b: Value, x: Value, y: Value)
    requires ComparedBy(a, x) && ComparedBy(b, y) && !(x.Num? && y.Num?)
    ensures EvalCondition(text, a, "<", b) <==> exists i: nat :: SortsAt(text(x), text(y), i)
    ensures EvalCondition(text, a, ">", b) <==> exists i: nat :: SortsAt(text(y), text(x), i)
    ensures EvalCondition(text, a, "==", b) <==> text(x) == text(y)
    ensures EvalCondition(text, a, "!=", b) <==> text(x) != text(y)
    ensures EvalCondition(text, a, "<=", b) <==> text(x) == text(y) || exists i: nat :: SortsAt(text(x), text(y), i)
    ensures EvalCondition(text, a, ">=", b) <==> text(x) == text(y) || exists i: nat :: SortsAt(text(y), text(x), i)
  {
    TextOrder(text(x), text(y));
    TextOrder(text(y), text(x));
    BeforeIsOrder(text(x), text(y));
    hide Before, SortsAt;
    assert Normalize(a) == x && Normalize(b) == y;
  }

  /** A set includes a value if some element prints like it, references by the uuid they carry. */
  lemma {:induction false} IncludesMeans(text: Text, es: seq<Value>, v: Value, y: Value)
    requires ComparedBy(v, y)
    ensures EvalCondition(text, Arr([Str("set"), Arr(es)]), "includes", v) <==>
            exists i, x :: 0 <= i < |es| && ComparedBy(es[i], x) && text(x) == text(y)
    ensures EvalCondition(text, Arr([Str("set"), Arr(es)]), "excludes", v) <==>
            !EvalCondition(text, Arr([Str("set"), Arr(es)]), "includes", v)
  {
    assert Normalize(v) == y;
    if i, x :| 0 <= i < |es| && ComparedBy(es[i], x) && text(x) == text(y) {
      assert es[i] in es && Normalize(es[i]) == x;
    }
    if e :| e in es && text(Normalize(e)) == text(y) {
      var i :| 0 <= i < |es| && es[i] == e;
      assert ComparedBy(es[i], Normalize(e));
    }
  }

  lemma SetIsTagged(v: Value)
    ensures IsSet(v) <==> exists es :: v == Arr([Str("set"), Arr(es)])
  {
    if IsSet(v) {
      assert v == Arr([Str("set"), Arr(v.elems[1].elems)]);
    }
  }

  /** Any other value includes what prints like it. */
  lemma {:induction false} ValueIncludes(text: Text, a: Value, b: Value, x: Value, y: Value)
    requires ComparedBy(a, x) && ComparedBy(b, y)
    requires forall es :: a != Arr([Str("set"), Arr(es)])
    ensures EvalCondition(text, a, "includes", b) <==> text(x) == text(y)
    ensures EvalCondition(text, a, "excludes", b) <==> text(x) != text(y)
  {
    SetIsTagged(a);
    assert Normalize(a) == x && Normalize(b) == y;
  }

  /** A condition on a column the row does not have holds only as an inequality; one that is malformed or
      names another function never holds; and a row matches when it meets all of them. */
  lemma {:induction false} MatchMeans(text: Text, row: Row, conds: seq<Value>)
    ensures MatchWhere(text, row, conds) <==>
            forall i :: 0 <= i < |conds| ==>
              && conds[i].Arr? && |conds[i].elems| == 3
              && var column := if conds[i].elems[0].Str? then conds[i].elems[0].s else "";
                 var fn := if conds[i].elems[1].Str? then conds[i].elems[1].s else "";
                 if column in row then EvalCondition(text, row[column], fn, conds[i].elems[2]) else fn == "!="
    ensures forall a, fn, b :: !Comparison(fn) && fn != "includes" && fn != "excludes" ==> !EvalCondition(text, a, fn, b)
  {
  }

  // ---- Mutations -----------------------------------------------------------------------------------

  lemma ProductIs(a: real, b: real)
    ensures Product(a, b) == a * b
  {
  }

  /** What an arithmetic mutation leaves in a numeric column, rounding apart. */
  lemma {:induction false} NumericMutations(text: Text, row: Row, column: string, v: Value)
    requires column in row && row[column].Num? && v.Num?
    ensures Mutate(text, row, column, "+=", v) == Mutated(row[column := Num(row[column].n + v.n)])
    ensures Mutate(text, row, column, "-=", v) == Mutated(row[column := Num(row[column].n - v.n)])
    ensures exists p :: p == row[column].n * v.n && Mutate(text, row, column, "*=", v) == Mutated(row[column := Num(p)])
    ensures v.n != 0.0 ==>
              exists q :: q == row[column].n / v.n && Mutate(text, row, column, "/=", v) == Mutated(row[column := Num(q)])
    ensures v.n == 0.0 ==>
              Mutate(text, row, column, "/=", v) == Mutate(text, row, column, "%=", v) == Rejected(row, ByZero)
  {
    hide Product, SetInsert, SetDelete, Rem, Trunc;
    var p := Product(row[column].n, v.n);
    assert Mutate(text, row, column, "*=", v) == Mutated(row[column := Num(p)]);
    ProductIs(row[column].n, v.n);
    if v.n != 0.0 {
      var q := row[column].n / v.n;
      assert Mutate(text, row, column, "/=", v) == Mutated(row[column := Num(q)]);
    }
  }

  /** Where the divisor is at least one, the remainder is that of the two numbers cut to integers. */
  lemma {:induction false} NumericRemainder(text: Text, row: Row, column: string, v: Value)
    requires column in row && row[column].Num? && v.Num? && (v.n <= -1.0 || 1.0 <= v.n)
    ensures exists r :: Remainder(row[column].n, v.n, r) &&
              Mutate(text, row, column, "%=", v) == Mutated(row[column := Num(r as real)])
  {
    hide Trunc, Rem, Remainder, SetInsert, SetDelete;
    TruncCuts(v.n);
    RemainderMeans(row[column].n, v.n);
    var r := Rem(Trunc(row[column].n), Trunc(v.n));
    assert Mutate(text, row, column, "%=", v) == Mutated(row[column := Num(r as real)]);
  }

  /** The remainder of the two numbers cut to integers: smaller than the divisor, with the sign of the dividend. */
  ghost predicate Remainder(a: real, b: real, r: int)
  {
    exists m, n, q :: Cut(a, m) && Cut(b, n) && Divides(m, n, q, r)
  }

  predicate Divides(m: int, n: int, q: int, r: int)
  {
    m == q * n + r && (if n > 0 then -n < r < n else n < r < -n) && (m >= 0 ==> r >= 0) && (m <= 0 ==> r <= 0)
  }

  lemma {:induction false} RemainderMeans(a: real, b: real)
    requires b <= -1.0 || 1.0 <= b
    ensures Trunc(b) != 0 && Remainder(a, b, Rem(Trunc(a), Trunc(b)))
  {
    TruncCuts(a);
    TruncCuts(b);
    hide Trunc, Cut;
    var m, n := Trunc(a), Trunc(b);
    if m >= 0 {
      assert m == (m / n) * n + m % n;
      assert Divides(m, n, m / n, m % n);
    } else {
      var k := -m;
      assert k == (k / n) * n + k % n;
      assert m == (-(k / n)) * n + -(k % n);
      assert Divides(m, n, -(k / n), -(k % n));
    }
  }

  /** What the other mutations do: arithmetic on anything but numbers is rejected, adding and subtracting
      are set operations there, and unknown or malformed mutations are rejected, all without touching the row. */
  lemma {:induction false} OtherMutations(text: Text, row: Row, column: string, v: Value)
    requires !(column in row && row[column].Num? && v.Num?)
    ensures Mutate(text, row, column, "*=", v) == Rejected(row, NotNumeric)
    ensures Mutate(text, row, column, "/=", v) == Rejected(row, NotNumeric)
    ensures Mutate(text, row, column, "%=", v) == Rejected(row, NotNumeric)
    ensures Mutate(text, row, column, "+=", v) == Mutate(text, row, column, "insert", v)
    ensures Mutate(text, row, column, "-=", v) == Mutate(text, row, column, "delete", v)
  {
  }

  lemma {:induction false} RefusedMutations(text: Text, row: Row, column: string, op: string, v: Value, m: Value)
    ensures op !in {"+=", "-=", "*=", "/=", "%=", "insert", "delete"} ==>
              Mutate(text, row, column, op, v) == Rejected(row, UnknownMutator)
    ensures MutateBy(text, row, Arr([Str(column), Str(op), v])) == Mutate(text, row, column, op, v)
    ensures !(m.Arr? && |m.elems| == 3) ==> MutateBy(text, row, m) == Rejected(row, InvalidMutation)
  {
  }

  /** What an insert leaves: the set with the value appended, a set of the value alone where there was
      nothing, and a set of both where there was a single value. */
  lemma {:induction false} InsertLeaves(text: Text, row: Row, column: string, es: seq<Value>, v: Value)
    ensures column in row && row[column] == Arr([Str("set"), Arr(es)]) ==>
              Mutate(text, row, column, "insert", v) == Mutated(row[column := Arr([Str("set"), Arr(es + [v])])])
    ensures column !in row || row[column] == Null ==>
              Mutate(text, row, column, "insert", v) == Mutated(row[column := Arr([Str("set"), Arr([v])])])
    ensures column in row && row[column] != Null && (forall fs :: row[column] != Arr([Str("set"), Arr(fs)])) ==>
              Mutate(text, row, column, "insert", v) == Mutated(row[column := Arr([Str("set"), Arr([row[column], v])])])
  {
    if column in row {
      SetIsTagged(row[column]);
    }
  }

  /** What a delete leaves: the elements of a set that do not print like the value, in their order; nothing
      else is touched. */
  lemma {:induction false} DeleteLeaves(text: Text, row: Row, column: string, es: seq<Value>, fs: seq<Value>, v: Value)
    ensures Without(text, es + fs, text(Normalize(v))) == Without(text, es, text(Normalize(v))) + Without(text, fs, text(Normalize(v)))
    ensures column in row && row[column] == Arr([Str("set"), Arr(es)]) ==>
              Mutate(text, row, column, "delete", v) ==
              Mutated(row[column := Arr([Str("set"), Arr(Without(text, es, text(Normalize(v))))])])
    ensures column !in row || (forall gs :: row[column] != Arr([Str("set"), Arr(gs)])) ==>
              Mutate(text, row, column, "delete", v) == Mutated(row)
  {
    WithoutConcat(text, es, fs, text(Normalize(v)));
    if column in row {
      SetIsTagged(row[column]);
    }
  }

  lemma {:induction false} WithoutConcat(text: Text, es: seq<Value>, fs: seq<Value>, key: string)
    ensures Without(text, es + fs, key) == Without(text, es, key) + Without(text, fs, key)
  {
    if es == [] {
      assert es + fs == fs;
    } else {
      assert (es + fs)[1..] == es[1..] + fs;
      WithoutConcat(text, es[1..], fs, key);
    }
  }

  /** Two mutations of one column, the second on what the first left. */
  function Twice(text: Text, row: Row, column: string, op: string, op': string, v: Value): RowOutcome
  {
    var first := Mutate(text, row, column, op, v);
    if first.Mutated? then Mutate(text, first.row, column, op', v) else first
  }

  lemma {:induction false} WithoutElem(text: Text, elems: seq<Value>, key: string, e: Value)
    ensures e in Without(text, elems, key) <==> e in elems && text(Normalize(e)) != key
  {
    if elems != [] {
      WithoutElem(text, elems[1..], key, e);
    }
  }

  lemma {:induction false} WithoutLast(text: Text, elems: seq<Value>, v: Value, key: string)
    ensures text(Normalize(v)) == key ==> Without(text, elems + [v], key) == Without(text, elems, key)
  {
    if elems != [] {
      assert (elems + [v])[1..] == elems[1..] + [v];
      WithoutLast(text, elems[1..], v, key);
    }
  }

  lemma {:induction false} WithoutNothing(text: Text, elems: seq<Value>, key: string)
    requires forall e :: e in elems ==> text(Normalize(e)) != key
    ensures Without(text, elems, key) == elems
  {
    if elems != [] {
      WithoutNothing(text, elems[1..], key);
      assert elems == [elems[0]] + elems[1..];
    }
  }

  /** After an insert the column includes the value, whatever it held before. */
  lemma InsertIncludes(text: Text, row: Row, column: string, v: Value)
    ensures
      var r := Mutate(text, row, column, "insert", v);
      r.Mutated? && column in r.row && IsSet(r.row[column]) && SetIncludes(text, r.row[column], v)
  {
    var now := Mutate(text, row, column, "insert", v).row[column];
    assert v in now.elems[1].elems && text(Normalize(v)) == text(Normalize(v));
  }

  /** After a delete a set excludes the value and keeps everything else, and nothing but the column moves. */
  lemma DeleteExcludes(text: Text, row: Row, column: string, v: Value)
    requires column in row && IsSet(row[column])
    ensures
      var r := Mutate(text, row, column, "delete", v);
      && r.Mutated? && r.row.Keys == row.Keys && IsSet(r.row[column]) && !SetIncludes(text, r.row[column], v)
      && (forall e :: e in r.row[column].elems[1].elems <==>
            e in row[column].elems[1].elems && text(Normalize(e)) != text(Normalize(v)))
      && (forall c :: c in row && c != column ==> r.row[c] == row[c])
  {
    forall e: Value {
      WithoutElem(text, row[column].elems[1].elems, text(Normalize(v)), e);
    }
  }

  /** Deleting what was just inserted restores a set that did not include it. */
  lemma {:induction false} InsertThenDelete(text: Text, row: Row, column: string, v: Value)
    requires column in row && IsSet(row[column]) && !SetIncludes(text, row[column], v)
    ensures Twice(text, row, column, "insert", "delete", v) == Mutated(row)
  {
    var elems, key := row[column].elems[1].elems, text(Normalize(v));
    WithoutLast(text, elems, v, key);
    WithoutNothing(text, elems, key);
    assert row[column].elems == [Str("set"), Arr(elems)];
    assert SetOf(elems) == row[column];
  }

  // ---- Columns -------------------------------------------------------------------------------------

  /** What is shown of a row: with no columns named all of it, otherwise the named ones it has and its uuid. */
  lemma {:induction false} FilterCells(row: Row, columns: seq<string>)
    ensures forall c :: c in FilterColumns(row, columns) <==> c in row && (columns == [] || c in columns || c == "_uuid")
    ensures forall c :: c in FilterColumns(row, columns) ==> FilterColumns(row, columns)[c] == row[c]
  {
  }

  // ---- Tags ----------------------------------------------------------------------------------------

  /** How references and sets are written. */
  lemma {:induction false} TagsMean(v: Value, id: string, named: map<string, string>)
    ensures UuidRef(id) == Arr([Str("uuid"), Str(id)])
    ensures IsNamed(v) <==> exists name :: v == Arr([Str("named-uuid"), Str(name)])
    ensures IsSet(v) <==> exists es :: v == Arr([Str("set"), Arr(es)])
    ensures Resolve(Arr([Str("named-uuid"), Str(id)]), named) ==
            if id in named then Arr([Str("uuid"), Str(named[id])]) else Arr([Str("named-uuid"), Str(id)])
  {
    if IsNamed(v) {
      assert v == Arr([Str("named-uuid"), Str(v.elems[1].s)]);
    }
    SetIsTagged(v);
  }
}
