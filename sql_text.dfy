/**
 * The SQL text both query specifications assemble: the filter predicates with
 * their named parameters, the ORDER BY terms that survive the allow-list, and
 * the line-by-line layout of the final statement (SQL Server paging dialect).
 */
module SqlText {
  import opened Common
  import opened Domain

  /** A value bound to a named parameter of the statement. */
  datatype SqlValue =
    | LongValue(l: int)
    | DateValue(d: DateTime)
    | StatusValue(s: SaleStatus)
    | DecimalValue(x: Decimal)
    | TextValue(t: string)

  /**
   * One optional filter of a contract: when `value` is present it contributes the
   * predicate `<column> <op> @<name>` and binds `name` to the value.
   */
  datatype FilterRequest = FilterRequest(column: string, op: string, name: string, value: Option<SqlValue>)
  {
    /** The predicate text; its placeholder is the parameter's own name. */
    function Predicate(): string {
      column + " " + op + " @" + name
    }
  }

  /** The parameter value of an optional contract field, by the field's type. */
  function LongParameter(v: Option<int>): Option<SqlValue> {
    if v.Some? then Some(LongValue(v.value)) else None
  }

  function DateParameter(v: Option<DateTime>): Option<SqlValue> {
    if v.Some? then Some(DateValue(v.value)) else None
  }

  function StatusParameter(v: Option<SaleStatus>): Option<SqlValue> {
    if v.Some? then Some(StatusValue(v.value)) else None
  }

  function DecimalParameter(v: Option<Decimal>): Option<SqlValue> {
    if v.Some? then Some(DecimalValue(v.value)) else None
  }

  /** The predicates of the present filters, in request order. */
  function ConditionsOf(rs: seq<FilterRequest>): seq<string>
    decreases |rs|
  {
    if rs == [] then []
    else
      var last := rs[|rs| - 1];
      ConditionsOf(rs[..|rs| - 1]) + (if last.value.Some? then [last.Predicate()] else [])
  }

  /** The parameter bag: one binding per present filter (a later `Add` of a name replaces an earlier one). */
  function ParametersOf(rs: seq<FilterRequest>): map<string, SqlValue>
    decreases |rs|
  {
    if rs == [] then map[]
    else
      var last := rs[|rs| - 1];
      var init := ParametersOf(rs[..|rs| - 1]);
      if last.value.Some? then init[last.name := last.value.value] else init
  }

  /** Applying the next filter of a table extends the conditions and the parameter bag by that filter alone. */
  lemma FilterStep(rs: seq<FilterRequest>, k: nat)
    requires k < |rs|
    ensures ConditionsOf(rs[..k + 1]) == ConditionsOf(rs[..k]) + (if rs[k].value.Some? then [rs[k].Predicate()] else [])
    ensures ParametersOf(rs[..k + 1])
            == if rs[k].value.Some? then ParametersOf(rs[..k])[rs[k].name := rs[k].value.value] else ParametersOf(rs[..k])
  {
    assert rs[..k + 1][..k] == rs[..k];
  }

  /** No two filters of a table share a parameter name or a predicate. */
  predicate DistinctFilters(rs: seq<FilterRequest>) {
    forall i, j :: 0 <= i < j < |rs| ==> rs[i].name != rs[j].name && rs[i].Predicate() != rs[j].Predicate()
  }

  /** Present filters contribute their predicates and nothing else. */
  lemma {:induction false} ConditionsOfMeaning(rs: seq<FilterRequest>, p: string)
    ensures p in ConditionsOf(rs) <==> exists i :: 0 <= i < |rs| && rs[i].value.Some? && rs[i].Predicate() == p
    ensures |ConditionsOf(rs)| <= |rs|
    decreases |rs|
  {
    if rs != [] {
      var init := rs[..|rs| - 1];
      ConditionsOfMeaning(init, p);
      if p in ConditionsOf(rs) && !(rs[|rs| - 1].value.Some? && rs[|rs| - 1].Predicate() == p) {
        var i :| 0 <= i < |init| && init[i].value.Some? && init[i].Predicate() == p;
        assert rs[i] == init[i];
      }
      if exists i :: 0 <= i < |rs| && rs[i].value.Some? && rs[i].Predicate() == p {
        var i :| 0 <= i < |rs| && rs[i].value.Some? && rs[i].Predicate() == p;
        if i < |init| {
          assert init[i] == rs[i];
        }
      }
    }
  }

  /** Conditions follow the table order: the conditions of a split table are those of its parts, concatenated. */
  lemma {:induction false} ConditionsOfAppend(a: seq<FilterRequest>, b: seq<FilterRequest>)
    ensures ConditionsOf(a + b) == ConditionsOf(a) + ConditionsOf(b)
    decreases |b|
  {
    if b == [] {
      assert a + b == a;
    } else {
      var b' := b[..|b| - 1];
      assert (a + b)[..|a + b| - 1] == a + b';
      ConditionsOfAppend(a, b');
    }
  }

  /** The bound names are exactly the names of the present filters. */
  lemma {:induction false} ParametersOfKeys(rs: seq<FilterRequest>, n: string)
    ensures n in ParametersOf(rs) <==> exists i :: 0 <= i < |rs| && rs[i].value.Some? && rs[i].name == n
    decreases |rs|
  {
    if rs != [] {
      var init := rs[..|rs| - 1];
      ParametersOfKeys(init, n);
      if n in ParametersOf(rs) && !(rs[|rs| - 1].value.Some? && rs[|rs| - 1].name == n) {
        var i :| 0 <= i < |init| && init[i].value.Some? && init[i].name == n;
        assert rs[i] == init[i];
      }
      if exists i :: 0 <= i < |rs| && rs[i].value.Some? && rs[i].name == n {
        var i :| 0 <= i < |rs| && rs[i].value.Some? && rs[i].name == n;
        if i < |init| {
          assert init[i] == rs[i];
        }
      }
    }
  }

  /** With distinct names, each present filter's parameter holds that filter's own value. */
  lemma {:induction false} ParametersOfValue(rs: seq<FilterRequest>, k: int)
    requires DistinctFilters(rs)
    requires 0 <= k < |rs| && rs[k].value.Some?
    ensures rs[k].name in ParametersOf(rs) && ParametersOf(rs)[rs[k].name] == rs[k].value.value
    decreases |rs|
  {
    var init := rs[..|rs| - 1];
    if k < |rs| - 1 {
      assert init[k] == rs[k];
      ParametersOfValue(init, k);
    }
  }

  /**
   * A filter of a table with distinct names and predicates adds its predicate and
   * binds its name exactly when its value is present, and then binds that value.
   */
  lemma FilterEffect(rs: seq<FilterRequest>, k: int)
    requires DistinctFilters(rs)
    requires 0 <= k < |rs|
    ensures rs[k].Predicate() in ConditionsOf(rs) <==> rs[k].value.Some?
    ensures rs[k].name in ParametersOf(rs) <==> rs[k].value.Some?
    ensures rs[k].value.Some? ==> ParametersOf(rs)[rs[k].name] == rs[k].value.value
  {
    ConditionsOfMeaning(rs, rs[k].Predicate());
    ParametersOfKeys(rs, rs[k].name);
    if rs[k].value.Some? {
      ParametersOfValue(rs, k);
    }
  }

  // ---------------------------------------------------------------- ordering

  /** A requested sort key: `FieldName` and `Ascending` (which defaults to false). */
  datatype OrderingField = OrderingField(fieldName: string, ascending: bool)

  /** The ORDER BY term of one field: its name, a space, then ASC or DESC. */
  function OrderTerm(f: OrderingField): (r: string)
    ensures r == f.fieldName + " ASC" || r == f.fieldName + " DESC"
    ensures r[..|f.fieldName|] == f.fieldName
    ensures f.ascending <==> r[|f.fieldName|..] == " ASC"
  {
    f.fieldName + " " + (if f.ascending then "ASC" else "DESC")
  }

  /** `allowedFields.Any(x => x.Equals(fieldName))`: an ordinal, case-sensitive search of the allow-list. */
  function AnyEquals(allowed: seq<string>, fieldName: string): (r: bool)
    ensures r <==> fieldName in allowed
    decreases |allowed|
  {
    if allowed == [] then false
    else allowed[0] == fieldName || AnyEquals(allowed[1..], fieldName)
  }

  /** The terms the ordering loop appends: one per allowed field, in request order. */
  function OrderTerms(fields: seq<OrderingField>, allowed: seq<string>): seq<string>
    decreases |fields|
  {
    if fields == [] then []
    else
      var last := fields[|fields| - 1];
      OrderTerms(fields[..|fields| - 1], allowed) + (if last.fieldName in allowed then [OrderTerm(last)] else [])
  }

  /** A term survives exactly when its field is on the allow-list. */
  lemma {:induction false} OrderTermsMeaning(fields: seq<OrderingField>, allowed: seq<string>, t: string)
    ensures t in OrderTerms(fields, allowed) <==>
      exists i :: 0 <= i < |fields| && fields[i].fieldName in allowed && OrderTerm(fields[i]) == t
    ensures |OrderTerms(fields, allowed)| <= |fields|
    decreases |fields|
  {
    if fields != [] {
      var init := fields[..|fields| - 1];
      OrderTermsMeaning(init, allowed, t);
      var last := fields[|fields| - 1];
      if t in OrderTerms(fields, allowed) && !(last.fieldName in allowed && OrderTerm(last) == t) {
        var i :| 0 <= i < |init| && init[i].fieldName in allowed && OrderTerm(init[i]) == t;
        assert fields[i] == init[i];
      }
      if exists i :: 0 <= i < |fields| && fields[i].fieldName in allowed && OrderTerm(fields[i]) == t {
        var i :| 0 <= i < |fields| && fields[i].fieldName in allowed && OrderTerm(fields[i]) == t;
        if i < |init| {
          assert init[i] == fields[i];
        }
      }
    }
  }

  /** No term survives exactly when no requested field is allowed. */
  lemma {:induction false} OrderTermsEmpty(fields: seq<OrderingField>, allowed: seq<string>)
    ensures OrderTerms(fields, allowed) == [] <==> forall i :: 0 <= i < |fields| ==> fields[i].fieldName !in allowed
    decreases |fields|
  {
    if fields != [] {
      var init := fields[..|fields| - 1];
      OrderTermsEmpty(init, allowed);
      assert forall i :: 0 <= i < |init| ==> init[i] == fields[i];
    }
  }

  /** Request order is kept: the terms of two consecutive runs of fields are those runs' terms, in turn. */
  lemma {:induction false} OrderTermsAppend(a: seq<OrderingField>, b: seq<OrderingField>, allowed: seq<string>)
    ensures OrderTerms(a + b, allowed) == OrderTerms(a, allowed) + OrderTerms(b, allowed)
    decreases |b|
  {
    if b == [] {
      assert a + b == a;
    } else {
      var b' := b[..|b| - 1];
      assert (a + b)[..|a + b| - 1] == a + b';
      OrderTermsAppend(a, b', allowed);
    }
  }

  // ---------------------------------------------------------------- layout

  /** The kinds of line a specification appends after its fixed SELECT/FROM/JOIN lines. */
  datatype ClauseKind = WhereClause | OrderByClause | FallbackOrderClause | OffsetClause | FetchClause

  /** One `AppendLine` of the builder: the line's kind and its text (without the terminator). */
  datatype Clause = Clause(kind: ClauseKind, text: string)

  /** Position of a clause kind in a statement; the fallback ORDER BY takes the place of the requested one. */
  function Rank(k: ClauseKind): nat {
    match k
    case WhereClause => 0
    case OrderByClause => 1
    case FallbackOrderClause => 1
    case OffsetClause => 2
    case FetchClause => 3
  }

  function WhereLine(conditions: seq<string>): string {
    " WHERE " + Join(conditions, " AND ")
  }

  function OrderByLine(terms: seq<string>): string {
    " ORDER BY " + Join(terms, ", ")
  }

  function OffsetLine(rows: int): string {
    "OFFSET " + IntToString(rows) + " ROWS"
  }

  function FetchLine(rows: int): string {
    "FETCH NEXT " + IntToString(rows) + " ROWS ONLY"
  }

  /** The clause list after one conditional `AppendLine`: the clause is added, at the end, only when present. */
  function Emit(cs: seq<Clause>, present: bool, c: Clause): (r: seq<Clause>)
    ensures forall d :: d in r <==> d in cs || (present && d == c)
  {
    if present then cs + [c] else cs
  }

  /**
   * The clauses a specification appends after its fixed lines, given its collected
   * state. They are exactly these: one WHERE line joining all conditions when there
   * are any; one ORDER BY line of the surviving terms when any survived; the
   * fallback ORDER BY when paging without a term; OFFSET with Skip (or 0) when Skip
   * or Take is set; FETCH NEXT with Take when Take is set.
   */
  function Clauses(fallback: string, conditions: seq<string>, orderBy: seq<string>,
                   skip: Option<int>, take: Option<int>): (r: seq<Clause>)
    ensures forall c :: c in r <==>
      || (conditions != [] && c == Clause(WhereClause, WhereLine(conditions)))
      || (orderBy != [] && c == Clause(OrderByClause, OrderByLine(orderBy)))
      || (orderBy == [] && (skip.Some? || take.Some?) && c == Clause(FallbackOrderClause, fallback))
      || ((skip.Some? || take.Some?) && c == Clause(OffsetClause, OffsetLine(skip.GetOr(0))))
      || (take.Some? && c == Clause(FetchClause, FetchLine(take.value)))
  {
    var paging := skip.Some? || take.Some?;
    var w := Emit([], conditions != [], Clause(WhereClause, WhereLine(conditions)));
    var o := Emit(w, orderBy != [], Clause(OrderByClause, OrderByLine(orderBy)));
    var f := Emit(o, paging && orderBy == [], Clause(FallbackOrderClause, fallback));
    var x := Emit(f, paging, Clause(OffsetClause, OffsetLine(skip.GetOr(0))));
    Emit(x, paging && take.Some?, Clause(FetchClause, FetchLine(take.GetOr(0))))
  }

  /** Kinds strictly increase along a clause list: each kind at most once, in statement order. */
  predicate StrictlyRanked(cs: seq<Clause>) {
    forall i, j :: 0 <= i < j < |cs| ==> Rank(cs[i].kind) < Rank(cs[j].kind)
  }

  /** Every clause of the list ranks below `bound`. */
  predicate RankedBelow(cs: seq<Clause>, bound: nat) {
    forall d :: d in cs ==> Rank(d.kind) < bound
  }

  /** Appending a clause ranked above every clause already there keeps the list ranked. */
  lemma RankedEmit(cs: seq<Clause>, bound: nat, present: bool, c: Clause)
    requires StrictlyRanked(cs) && RankedBelow(cs, bound)
    requires present ==> bound <= Rank(c.kind)
    ensures StrictlyRanked(Emit(cs, present, c))
    ensures RankedBelow(Emit(cs, present, c), if present then Rank(c.kind) + 1 else bound)
  {
    if present {
      assert forall i :: 0 <= i < |cs| ==> (cs + [c])[i] == cs[i] && cs[i] in cs;
    }
  }

  /** Lines come in the order WHERE, ORDER BY, OFFSET, FETCH, each kind at most once. */
  lemma ClausesRanked(fallback: string, conditions: seq<string>, orderBy: seq<string>, skip: Option<int>, take: Option<int>)
    ensures StrictlyRanked(Clauses(fallback, conditions, orderBy, skip, take))
  {
    var paging := skip.Some? || take.Some?;
    var cw, co, cf := Clause(WhereClause, WhereLine(conditions)), Clause(OrderByClause, OrderByLine(orderBy)),
                      Clause(FallbackOrderClause, fallback);
    var cx, ct := Clause(OffsetClause, OffsetLine(skip.GetOr(0))), Clause(FetchClause, FetchLine(take.GetOr(0)));
    var w := Emit([], conditions != [], cw);
    RankedEmit([], 0, conditions != [], cw);
    var o := Emit(w, orderBy != [], co);
    RankedEmit(w, 1, orderBy != [], co);
    var f := Emit(o, paging && orderBy == [], cf);
    var below := if orderBy != [] then 2 else 1;
    RankedEmit(o, below, paging && orderBy == [], cf);
    var x := Emit(f, paging, cx);
    RankedEmit(f, 2, paging, cx);
    RankedEmit(x, 3, paging && take.Some?, ct);
  }

  /** The full statement: the fixed lines, then one line per clause. */
  function Statement(fixedLines: seq<string>, clauses: seq<Clause>): seq<string>
    decreases |clauses|
  {
    if clauses == [] then fixedLines
    else Statement(fixedLines, clauses[..|clauses| - 1]) + [clauses[|clauses| - 1].text]
  }

  /** The statement starts with the fixed lines, unchanged, and then holds the clauses' lines in order. */
  lemma {:induction false} StatementLines(fixedLines: seq<string>, clauses: seq<Clause>)
    ensures |Statement(fixedLines, clauses)| == |fixedLines| + |clauses|
    ensures Statement(fixedLines, clauses)[..|fixedLines|] == fixedLines
    ensures forall i :: 0 <= i < |clauses| ==> Statement(fixedLines, clauses)[|fixedLines| + i] == clauses[i].text
    decreases |clauses|
  {
    if clauses != [] {
      var init := clauses[..|clauses| - 1];
      StatementLines(fixedLines, init);
      assert forall i :: 0 <= i < |init| ==> init[i] == clauses[i];
    }
  }

  /** `StringBuilder.ToString()` after one `AppendLine` per line. */
  function Text(lines: seq<string>): string
    decreases |lines|
  {
    if lines == [] then "" else Text(lines[..|lines| - 1]) + lines[|lines| - 1] + "\n"
  }

  /** The text of the first lines of a statement is a prefix of the statement's text. */
  lemma {:induction false} TextPrefix(lines: seq<string>, k: nat)
    requires k <= |lines|
    ensures Text(lines[..k]) <= Text(lines)
    decreases |lines|
  {
    if k < |lines| {
      var init := lines[..|lines| - 1];
      assert init[..k] == lines[..k];
      TextPrefix(init, k);
    } else {
      assert lines[..k] == lines;
    }
  }

  /** Line `i` of a statement appears in its text, terminated, right after the lines before it. */
  lemma TextShowsLine(lines: seq<string>, i: nat)
    requires i < |lines|
    ensures Text(lines[..i]) + lines[i] + "\n" <= Text(lines)
  {
    assert lines[..i + 1][..i] == lines[..i];
    TextPrefix(lines, i + 1);
  }

  /**
   * The text of a statement starts with its fixed lines, and every clause's line
   * appears in it, terminated, after them.
   */
  lemma StatementShows(fixedLines: seq<string>, clauses: seq<Clause>, c: Clause)
    requires c in clauses
    ensures Text(fixedLines) <= Text(Statement(fixedLines, clauses))
    ensures exists i :: |fixedLines| <= i < |Statement(fixedLines, clauses)|
              && Text(Statement(fixedLines, clauses)[..i]) + c.text + "\n" <= Text(Statement(fixedLines, clauses))
  {
    var lines := Statement(fixedLines, clauses);
    StatementLines(fixedLines, clauses);
    TextPrefix(lines, |fixedLines|);
    var j :| 0 <= j < |clauses| && clauses[j] == c;
    TextShowsLine(lines, |fixedLines| + j);
  }

  /** `StringBuilder.AppendLine(line)` on a builder holding the given lines. */
  method AppendLine(sb: string, ghost lines: seq<string>, line: string) returns (r: string)
    requires sb == Text(lines)
    ensures r == Text(lines + [line])
  {
    assert (lines + [line])[..|lines|] == lines;
    r := sb + line + "\n";
  }

  /** `AppendLine` of one clause onto a statement under construction. */
  method AppendClause(sb: string, ghost fixedLines: seq<string>, ghost emitted: seq<Clause>, c: Clause)
    returns (r: string, ghost emitted': seq<Clause>)
    requires sb == Text(Statement(fixedLines, emitted))
    ensures emitted' == emitted + [c]
    ensures r == Text(Statement(fixedLines, emitted'))
  {
    assert (emitted + [c])[..|emitted|] == emitted;
    r := AppendLine(sb, Statement(fixedLines, emitted), c.text);
    emitted' := emitted + [c];
  }

  /** `AppendLine` of one clause when it is present; nothing otherwise. */
  method AppendOptional(sb: string, ghost fixedLines: seq<string>, ghost emitted: seq<Clause>, present: bool, c: Clause)
    returns (r: string, ghost emitted': seq<Clause>)
    requires sb == Text(Statement(fixedLines, emitted))
    ensures emitted' == Emit(emitted, present, c)
    ensures r == Text(Statement(fixedLines, emitted'))
  {
    if present {
      r, emitted' := AppendClause(sb, fixedLines, emitted, c);
    } else {
      r, emitted' := sb, emitted;
    }
  }

  /**
   * The steps of `ToSqlQuery` after the fixed lines: WHERE and ORDER BY when they
   * have content; when Skip or Take is set, the fallback ordering if no term
   * survived, OFFSET (Skip or 0), and FETCH NEXT when Take is set.
   */
  method AppendClauses(sb: string, ghost fixedLines: seq<string>, fallback: string, conditions: seq<string>,
                       orderBy: seq<string>, skip: Option<int>, take: Option<int>) returns (sql: string)
    requires sb == Text(fixedLines)
    ensures sql == Text(Statement(fixedLines, Clauses(fallback, conditions, orderBy, skip, take)))
  {
    ghost var emitted: seq<Clause> := [];
    sql := sb;
    sql, emitted := AppendOptional(sql, fixedLines, emitted, |conditions| > 0,
                                   Clause(WhereClause, " WHERE " + Join(conditions, " AND ")));
    sql, emitted := AppendOptional(sql, fixedLines, emitted, |orderBy| > 0,
                                   Clause(OrderByClause, " ORDER BY " + Join(orderBy, ", ")));
    if skip.Some? || take.Some? {
      sql, emitted := AppendOptional(sql, fixedLines, emitted, |orderBy| == 0, Clause(FallbackOrderClause, fallback));
      sql, emitted := AppendOptional(sql, fixedLines, emitted, true,
                                     Clause(OffsetClause, "OFFSET " + IntToString(skip.GetOr(0)) + " ROWS"));
      sql, emitted := AppendOptional(sql, fixedLines, emitted, take.Some?,
                                     Clause(FetchClause, "FETCH NEXT " + IntToString(take.GetOr(0)) + " ROWS ONLY"));
    }
  }
}
