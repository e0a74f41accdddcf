/**
 * The SQL predicate that pushes the bi-temporal filter down to the database
 * (temporalPredicate in src/store/postgres-store.ts), read in three-valued logic.
 */
module TimeFilter {
  import opened Wrappers
  import opened Temporal

  datatype Column = ValidAt | InvalidAt | CreatedAt | ExpiredAt

  /** A bound query parameter: a timestamp, or a value of another type. */
  datatype Param = Timestamp(t: Instant) | OtherValue

  /** The fragments the predicate is built of; `param` is the 1-based number after "$". */
  datatype Sql =
    | Empty
    | AtMost(col: Column, param: nat)
    | CoalesceAtMost(first: Column, second: Column, param: nat)
    | IsNull(col: Column)
    | And(l: Sql, r: Sql)
    | Or(l: Sql, r: Sql)
    | Not(e: Sql)

  /** SQL's truth values: a comparison with NULL is unknown. */
  datatype Truth = True | False | Unknown

  function Read(row: Stamps, col: Column): Option<Instant> {
    match col
    case ValidAt => row.validAt
    case InvalidAt => row.invalidAt
    case CreatedAt => row.createdAt
    case ExpiredAt => row.expiredAt
  }

  function Compare(v: Option<Instant>, params: seq<Param>, n: nat): Truth {
    if v.None? || n == 0 || n > |params| || !params[n - 1].Timestamp? then Unknown
    else if v.value <= params[n - 1].t then True
    else False
  }

  function Eval(e: Sql, row: Stamps, params: seq<Param>): Truth {
    match e
    case Empty => True
    case AtMost(col, n) => Compare(Read(row, col), params, n)
    case CoalesceAtMost(a, b, n) =>
      Compare(if Read(row, a).Some? then Read(row, a) else Read(row, b), params, n)
    case IsNull(col) => if Read(row, col).None? then True else False
    case And(l, r) => Both(Eval(l, row, params), Eval(r, row, params))
    case Or(l, r) => Negate(Both(Negate(Eval(l, row, params)), Negate(Eval(r, row, params))))
    case Not(x) => Negate(Eval(x, row, params))
  }

  function Both(x: Truth, y: Truth): Truth {
    if x == False || y == False then False else if x == True && y == True then True else Unknown
  }

  function Negate(x: Truth): Truth {
    if x == True then False else if x == False then True else Unknown
  }

  /** What a search asks for: all of history (null), or the facts active at an instant (default now). */
  datatype ActiveAt = History | At(at: Option<Instant>)

  /** The rows a search must see. The database never stores a row without created_at. */
  predicate Visible(row: Stamps, activeAt: ActiveAt, asOf: Option<Instant>, now: Instant) {
    match activeAt
    case History => IsFactKnown(row, asOf)
    case At(at) => IsFactActive(row, at.GetOr(now), asOf.GetOr(now))
  }

  /** A search at an instant sees exactly the rows whose view is active there, as known at another; now is the default of both. */
  lemma VisibleIsActiveView(row: Stamps, at: Option<Instant>, asOf: Option<Instant>, now: Instant)
    ensures var v := FactView(row, if at.Some? then at.value else now, if asOf.Some? then asOf.value else now);
            Visible(row, At(at), asOf, now) <==> v.Some? && v.value.state == Active
    ensures Visible(row, History, asOf, now)
            <==> asOf.None? || FactView(row, now, asOf.value).Some?
  {
  }

  function PredicateSql(at: nat, known: nat): Sql {
    And(AtMost(CreatedAt, known),
        And(Or(IsNull(ValidAt), AtMost(ValidAt, at)),
            Not(Or(And(Not(IsNull(InvalidAt)), And(AtMost(InvalidAt, at), CoalesceAtMost(ExpiredAt, CreatedAt, known))),
                   And(IsNull(InvalidAt), And(Not(IsNull(ExpiredAt)), AtMost(ExpiredAt, known)))))))
  }

  /** In three-valued logic the predicate is TRUE exactly on the active rows, whichever columns are NULL. */
  lemma PredicateIsActive(row: Stamps, params: seq<Param>, at: nat, known: nat)
    requires 0 < at <= |params| && 0 < known <= |params|
    requires params[at - 1].Timestamp? && params[known - 1].Timestamp?
    ensures Eval(PredicateSql(at, known), row, params) == True
            <==> row.createdAt.Some? && IsFactActive(row, params[at - 1].t, params[known - 1].t)
  {
    var created := Eval(AtMost(CreatedAt, known), row, params);
    var started := Eval(Or(IsNull(ValidAt), AtMost(ValidAt, at)), row, params);
    var endKnown := And(AtMost(InvalidAt, at), CoalesceAtMost(ExpiredAt, CreatedAt, known));
    var ended := And(Not(IsNull(InvalidAt)), endKnown);
    var withdrawn := And(Not(IsNull(ExpiredAt)), AtMost(ExpiredAt, known));
    var gone := And(IsNull(InvalidAt), withdrawn);
    assert created == Compare(row.createdAt, params, known);
    assert Eval(AtMost(ValidAt, at), row, params) == Compare(row.validAt, params, at);
    assert Eval(IsNull(ValidAt), row, params) == if row.validAt.None? then True else False;
    assert started == if row.validAt.None? then True else Compare(row.validAt, params, at);
    assert Eval(Not(IsNull(InvalidAt)), row, params) == if row.invalidAt.Some? then True else False;
    assert Eval(endKnown, row, params)
        == Both(Compare(row.invalidAt, params, at),
                Compare(if row.expiredAt.Some? then row.expiredAt else row.createdAt, params, known));
    assert Eval(Not(IsNull(ExpiredAt)), row, params) == if row.expiredAt.Some? then True else False;
    assert Eval(withdrawn, row, params) == if row.expiredAt.None? then False else Compare(row.expiredAt, params, known);
    assert Eval(ended, row, params) == if row.invalidAt.None? then False else Eval(endKnown, row, params);
    assert Eval(gone, row, params) == if row.invalidAt.Some? then False else Eval(withdrawn, row, params);
    var neither := Eval(Not(Or(ended, gone)), row, params);
    assert neither == Both(Negate(Eval(ended, row, params)), Negate(Eval(gone, row, params))) by {
      assert Eval(Or(ended, gone), row, params) == Negate(Both(Negate(Eval(ended, row, params)), Negate(Eval(gone, row, params))));
    }
    assert Eval(PredicateSql(at, known), row, params) == Both(created, Both(started, neither)) by {
      var rest := And(Or(IsNull(ValidAt), AtMost(ValidAt, at)), Not(Or(ended, gone)));
      assert Eval(rest, row, params) == Both(started, neither);
      assert PredicateSql(at, known) == And(AtMost(CreatedAt, known), rest);
    }
  }

  /** The parameter list one query's builders share. */
  class QueryParams {
    var params: seq<Param>

    constructor (bound: seq<Param>)
      ensures params == bound
    {
      params := bound;
    }

    /**
     * Appends the time filter, binding its instants after the ones already
     * bound. Whatever is bound later, a stored row passes exactly when it is
     * visible.
     */
    method TemporalPredicate(activeAt: ActiveAt, asOf: Option<Instant>, now: Instant) returns (sql: Sql)
      modifies this
      ensures params == old(params) + match activeAt {
          case History => if asOf.None? then [] else [Timestamp(asOf.value)]
          case At(at) => [Timestamp(at.GetOr(now)), Timestamp(asOf.GetOr(now))]
        }
      ensures forall row: Stamps, all: seq<Param> :: params <= all && row.createdAt.Some? ==>
                (Eval(sql, row, all) == True <==> Visible(row, activeAt, asOf, now))
    {
      if activeAt.History? {
        if asOf.None? {
          return Empty;
        }
        params := params + [Timestamp(asOf.value)];
        return AtMost(CreatedAt, |params|);
      }
      params := params + [Timestamp(activeAt.at.GetOr(now))];
      var at := |params|;
      params := params + [Timestamp(asOf.GetOr(now))];
      var known := |params|;
      sql := PredicateSql(at, known);
      forall row: Stamps, all: seq<Param> | params <= all && row.createdAt.Some?
        ensures Eval(sql, row, all) == True <==> Visible(row, activeAt, asOf, now)
      {
        assert all[at - 1] == params[at - 1] && all[known - 1] == params[known - 1];
        PredicateIsActive(row, all, at, known);
      }
    }
  }
}
