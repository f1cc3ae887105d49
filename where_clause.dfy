/** The WHERE clauses the blog listings build: a conjunction of column
    equalities whose right-hand sides are either literals or `?`
    placeholders, plus the list of values the driver binds to the
    placeholders, first value to first placeholder. */
module WhereClause {
  import opened Common
  import opened Tables

  datatype Column = PublishedColumn | FeaturedColumn | CategoryColumn

  datatype Value = IntValue(i: int) | TextValue(s: string)

  datatype Operand = Placeholder | Literal(v: Value)

  /** `bp.<column> = <operand>` */
  datatype Condition = Equals(column: Column, operand: Operand)

  /** The number of `?` in the clause. */
  function Placeholders(conds: seq<Condition>): nat {
    if conds == [] then 0
    else (if conds[0].operand.Placeholder? then 1 else 0) + Placeholders(conds[1..])
  }

  /** Substitutes the bound values for the placeholders in order; None when
      the driver would refuse the statement because the counts differ. */
  function Bind(conds: seq<Condition>, params: seq<Value>): (r: Option<seq<(Column, Value)>>)
    ensures r.Some? <==> Placeholders(conds) == |params|
    ensures r.Some? ==> |r.value| == |conds|
    ensures r.Some? ==> forall i :: 0 <= i < |conds| ==> r.value[i].0 == conds[i].column
  {
    if conds == [] then (if params == [] then Some([]) else None)
    else if conds[0].operand.Literal? then
      match Bind(conds[1..], params)
      case None => None
      case Some(rest) => Some([(conds[0].column, conds[0].operand.v)] + rest)
    else if params == [] then None
    else
      match Bind(conds[1..], params[1..])
      case None => None
      case Some(rest) => Some([(conds[0].column, params[0])] + rest)
  }

  /** Pushing one more condition, and its parameter when it has a
      placeholder, extends the bound clause by that condition. */
  lemma {:induction false} BindPush(conds: seq<Condition>, params: seq<Value>, c: Condition, extra: seq<Value>)
    requires Bind(conds, params).Some?
    requires c.operand.Placeholder? ==> |extra| == 1
    requires c.operand.Literal? ==> extra == []
    ensures Bind(conds + [c], params + extra)
      == Some(Bind(conds, params).value + [(c.column, if c.operand.Literal? then c.operand.v else extra[0])])
  {
    var x := (c.column, if c.operand.Literal? then c.operand.v else extra[0]);
    if conds == [] {
      assert params == [];
      assert conds + [c] == [c] && params + extra == extra;
      assert [c][0] == c && [c][1..] == [];
      if c.operand.Placeholder? {
        assert extra != [] && extra[1..] == [];
        assert Bind([c][1..], extra[1..]) == Some([]);
        assert Bind([c], extra) == Some([(c.column, extra[0])] + []);
        assert [(c.column, extra[0])] + [] == [x];
      } else {
        assert Bind([c][1..], extra) == Some([]);
        assert Bind([c], extra) == Some([(c.column, c.operand.v)] + []);
        assert [(c.column, c.operand.v)] + [] == [x];
      }
      assert Bind(conds, params).value + [x] == [x];
      assert Bind(conds + [c], params + extra) == Bind([c], extra);
    } else {
      var head := conds[0];
      assert (conds + [c])[0] == head && (conds + [c])[1..] == conds[1..] + [c];
      if head.operand.Literal? {
        var rest := Bind(conds[1..], params).value;
        BindPush(conds[1..], params, c, extra);
        assert Bind(conds, params).value == [(head.column, head.operand.v)] + rest;
        assert Bind(conds + [c], params + extra) == Some([(head.column, head.operand.v)] + (rest + [x]));
        assert ([(head.column, head.operand.v)] + rest) + [x] == [(head.column, head.operand.v)] + (rest + [x]);
      } else {
        assert params != [] && (params + extra)[0] == params[0];
        assert (params + extra)[1..] == params[1..] + extra;
        var rest := Bind(conds[1..], params[1..]).value;
        BindPush(conds[1..], params[1..], c, extra);
        assert Bind(conds, params).value == [(head.column, params[0])] + rest;
        assert Bind(conds + [c], params + extra) == Some([(head.column, params[0])] + (rest + [x]));
        assert ([(head.column, params[0])] + rest) + [x] == [(head.column, params[0])] + (rest + [x]);
      }
    }
  }

  /** What a row holds in a column, as MySQL compares it (booleans as 0/1). */
  function ColumnValue(p: Post, c: Column): Value {
    match c
    case PublishedColumn => IntValue(if p.published then 1 else 0)
    case FeaturedColumn => IntValue(if p.featured then 1 else 0)
    case CategoryColumn => TextValue(p.category)
  }

  /** The conditions joined with AND; no conditions means no WHERE clause. */
  predicate Satisfies(p: Post, bound: seq<(Column, Value)>) {
    forall i :: 0 <= i < |bound| ==> ColumnValue(p, bound[i].0) == bound[i].1
  }

  /** The rows a statement with this WHERE clause and these parameters
      selects, in table order; None when binding fails. */
  function Select(posts: seq<Post>, conds: seq<Condition>, params: seq<Value>): (r: Option<seq<Post>>)
    ensures r.Some? <==> Placeholders(conds) == |params|
  {
    match Bind(conds, params)
    case None => None
    case Some(bound) => Some(Filter(posts, (p: Post) => Satisfies(p, bound)))
  }
}
