/**
  The SQL text built by search_properties (app/tools/real_estate_tools.py).
  Each of the ten keyword arguments that is not None contributes one clause,
  in a fixed order, and one entry of `params`; the clauses are joined with
  " AND " after " WHERE " when there is at least one. The listing rows that
  the built query selects are described by a row predicate.

  Prices and sizes are floats in the source; here every number is an integer
  shown in decimal (see the README for what that leaves out).
 */
module PropertySearch {
  import opened Optional

  const BaseQuery: string :=
    "SELECT id, preco, tamanho, cidade, bairro, rua, n_quartos, n_banheiros, n_garagem FROM propriedades"

  /** The keyword arguments of search_properties. */
  datatype FilterKind =
    | PrecoMin | PrecoMax | TamanhoMin | TamanhoMax
    | NQuartos | NBanheiros | NGaragem
    | Rua | Bairro | Cidade

  /** The order in which search_properties tests its arguments. */
  const FilterOrder: seq<FilterKind> :=
    [PrecoMin, PrecoMax, TamanhoMin, TamanhoMax, NQuartos, NBanheiros, NGaragem, Rua, Bairro, Cidade]

  /** A value that a filter carries or that params binds. */
  datatype Value = Num(n: int) | Text(s: string)

  /** The ten arguments; None is Python's default `None`. */
  datatype Filters = Filters(
    precoMin: Option<int>, precoMax: Option<int>,
    tamanhoMin: Option<int>, tamanhoMax: Option<int>,
    nQuartos: Option<int>, nBanheiros: Option<int>, nGaragem: Option<int>,
    rua: Option<string>, bairro: Option<string>, cidade: Option<string>)

  const NoFilters: Filters := Filters(None, None, None, None, None, None, None, None, None, None)

  function NumArg(o: Option<int>): Option<Value> {
    match o
    case None => None
    case Some(n) => Some(Num(n))
  }

  function TextArg(o: Option<string>): Option<Value> {
    match o
    case None => None
    case Some(s) => Some(Text(s))
  }

  /** The argument of a given kind. */
  function Arg(f: Filters, k: FilterKind): Option<Value> {
    match k
    case PrecoMin => NumArg(f.precoMin)
    case PrecoMax => NumArg(f.precoMax)
    case TamanhoMin => NumArg(f.tamanhoMin)
    case TamanhoMax => NumArg(f.tamanhoMax)
    case NQuartos => NumArg(f.nQuartos)
    case NBanheiros => NumArg(f.nBanheiros)
    case NGaragem => NumArg(f.nGaragem)
    case Rua => TextArg(f.rua)
    case Bairro => TextArg(f.bairro)
    case Cidade => TextArg(f.cidade)
  }

  /** The argument's name, which is also its key in params. */
  function ParamName(k: FilterKind): string {
    match k
    case PrecoMin => "preco_min"
    case PrecoMax => "preco_max"
    case TamanhoMin => "tamanho_min"
    case TamanhoMax => "tamanho_max"
    case NQuartos => "n_quartos"
    case NBanheiros => "n_banheiros"
    case NGaragem => "n_garagem"
    case Rua => "rua"
    case Bairro => "bairro"
    case Cidade => "cidade"
  }

  /** The filterable columns of the propriedades table. */
  datatype Col = Preco | Tamanho | NQuartosCol | NBanheirosCol | NGaragemCol | RuaCol | BairroCol | CidadeCol

  function ColumnName(c: Col): string {
    match c
    case Preco => "preco"
    case Tamanho => "tamanho"
    case NQuartosCol => "n_quartos"
    case NBanheirosCol => "n_banheiros"
    case NGaragemCol => "n_garagem"
    case RuaCol => "rua"
    case BairroCol => "bairro"
    case CidadeCol => "cidade"
  }

  /** The table column an argument constrains. */
  function Column(k: FilterKind): Col {
    match k
    case PrecoMin | PrecoMax => Preco
    case TamanhoMin | TamanhoMax => Tamanho
    case NQuartos => NQuartosCol
    case NBanheiros => NBanheirosCol
    case NGaragem => NGaragemCol
    case Rua => RuaCol
    case Bairro => BairroCol
    case Cidade => CidadeCol
  }

  // ---------------------------------------------------------------------
  // Clauses
  // ---------------------------------------------------------------------

  datatype Op = Ge | Le | Eq | ILike

  /** One WHERE clause: a column, a comparison and the value it compares with. */
  datatype Clause = Clause(column: Col, op: Op, operand: Value)

  function OpOf(k: FilterKind): Op {
    match k
    case PrecoMin | TamanhoMin => Ge
    case PrecoMax | TamanhoMax => Le
    case NQuartos | NBanheiros | NGaragem => Eq
    case Rua | Bairro | Cidade => ILike
  }

  function OpText(op: Op): string {
    match op
    case Ge => ">="
    case Le => "<="
    case Eq => "="
    case ILike => "ILIKE"
  }

  /** A number is written as it is; a text as a quoted pattern with a `%` on each side. */
  function OperandText(v: Value): string {
    match v
    case Num(n) => Show(n)
    case Text(s) => "'%" + s + "%'"
  }

  /** The clause text that the f-string of the source produces. */
  function Render(c: Clause): string {
    ColumnName(c.column) + " " + OpText(c.op) + " " + OperandText(c.operand)
  }

  function ClauseFor(k: FilterKind, v: Value): Clause {
    Clause(Column(k), OpOf(k), v)
  }

  /** What a set argument binds in params: numbers as given, texts as their `%...%` pattern. */
  function ParamValue(v: Value): Value {
    match v
    case Num(n) => Num(n)
    case Text(s) => Text("%" + s + "%")
  }

  /** The clause one argument contributes: one if it is not None, none otherwise. */
  function Entry(f: Filters, k: FilterKind): seq<Clause> {
    match Arg(f, k)
    case None => []
    case Some(v) => [ClauseFor(k, v)]
  }

  /** The clauses of the arguments in `ks`, in that order. */
  function ClausesOver(f: Filters, ks: seq<FilterKind>): seq<Clause> {
    if ks == [] then [] else ClausesOver(f, ks[..|ks| - 1]) + Entry(f, ks[|ks| - 1])
  }

  /** The params entries of the arguments in `ks`. */
  function ParamsOver(f: Filters, ks: seq<FilterKind>): map<string, Value> {
    if ks == [] then map[]
    else
      var k := ks[|ks| - 1];
      var prev := ParamsOver(f, ks[..|ks| - 1]);
      match Arg(f, k)
      case None => prev
      case Some(v) => prev[ParamName(k) := ParamValue(v)]
  }

  /** The argument kinds among `ks` that are set, in that order. */
  function SetKindsOver(f: Filters, ks: seq<FilterKind>): seq<FilterKind> {
    if ks == [] then []
    else SetKindsOver(f, ks[..|ks| - 1]) + (if Arg(f, ks[|ks| - 1]).Some? then [ks[|ks| - 1]] else [])
  }

  function ClauseList(f: Filters): seq<Clause> {
    ClausesOver(f, FilterOrder)
  }

  function Params(f: Filters): map<string, Value> {
    ParamsOver(f, FilterOrder)
  }

  function SetKinds(f: Filters): seq<FilterKind> {
    SetKindsOver(f, FilterOrder)
  }

  function RenderAll(cs: seq<Clause>): seq<string> {
    seq(|cs|, i requires 0 <= i < |cs| => Render(cs[i]))
  }

  /** Python's `sep.join(parts)`. */
  function Join(parts: seq<string>, sep: string): string {
    if parts == [] then ""
    else if |parts| == 1 then parts[0]
    else parts[0] + sep + Join(parts[1..], sep)
  }

  /** The query string that search_properties sends to the database. */
  function Query(f: Filters): string {
    var filters := RenderAll(ClauseList(f));
    if filters == [] then BaseQuery else BaseQuery + " WHERE " + Join(filters, " AND ")
  }

  // ---------------------------------------------------------------------
  // Decimal rendering of integers (Python's str of an int)
  // ---------------------------------------------------------------------

  function DigitChar(d: int): char
    requires 0 <= d < 10
  {
    "0123456789"[d]
  }

  function NatToString(n: nat): (s: string)
    ensures |s| > 0
    decreases n
  {
    if n < 10 then [DigitChar(n)] else NatToString(n / 10) + [DigitChar(n % 10)]
  }

  function Show(n: int): string {
    if n < 0 then "-" + NatToString(-n) else NatToString(n)
  }

  // ---------------------------------------------------------------------
  // The operation itself (lines 35-71)
  // ---------------------------------------------------------------------

  lemma RenderAllAppend(a: seq<Clause>, b: seq<Clause>)
    ensures RenderAll(a + b) == RenderAll(a) + RenderAll(b)
  {
    var l, r := RenderAll(a + b), RenderAll(a) + RenderAll(b);
    assert |l| == |a| + |b| == |r|;
    forall i | 0 <= i < |l|
      ensures l[i] == r[i]
    {
      RenderAllAt(a + b, i);
      if i < |a| {
        RenderAllAt(a, i);
      } else {
        RenderAllAt(b, i - |a|);
      }
    }
  }

  /** One step of the chain of `if`s extends the clauses and the params by the next argument. */
  lemma Step(f: Filters, ks: seq<FilterKind>, k: FilterKind)
    ensures ClausesOver(f, ks + [k]) == ClausesOver(f, ks) + Entry(f, k)
    ensures RenderAll(ClausesOver(f, ks + [k])) == RenderAll(ClausesOver(f, ks)) + RenderAll(Entry(f, k))
    ensures ParamsOver(f, ks + [k]) ==
              if Arg(f, k).Some? then ParamsOver(f, ks)[ParamName(k) := ParamValue(Arg(f, k).value)]
              else ParamsOver(f, ks)
  {
    assert (ks + [k])[..|ks|] == ks;
    RenderAllAppend(ClausesOver(f, ks), Entry(f, k));
  }

  /** Text filters carry text, the others numbers. */
  predicate WellTyped(k: FilterKind, v: Value) {
    OpOf(k) == ILike <==> v.Text?
  }

  /** The f-string that the source appends for an argument. */
  function SourceClause(k: FilterKind, v: Value): string {
    var x := match v case Num(n) => Show(n) case Text(s) => s;
    match k
    case PrecoMin => "preco >= " + x
    case PrecoMax => "preco <= " + x
    case TamanhoMin => "tamanho >= " + x
    case TamanhoMax => "tamanho <= " + x
    case NQuartos => "n_quartos = " + x
    case NBanheiros => "n_banheiros = " + x
    case NGaragem => "n_garagem = " + x
    case Rua => "rua ILIKE '%" + x + "%'"
    case Bairro => "bairro ILIKE '%" + x + "%'"
    case Cidade => "cidade ILIKE '%" + x + "%'"
  }

  /** The f-strings of the two bounds on price and on size render their clauses. */
  lemma BoundClauseRenders(k: FilterKind, n: int)
    requires k in {PrecoMin, PrecoMax, TamanhoMin, TamanhoMax}
    ensures SourceClause(k, Num(n)) == Render(ClauseFor(k, Num(n)))
  {
    match k
    case PrecoMin => assert "preco" + " " + ">=" + " " == "preco >= ";
    case PrecoMax => assert "preco" + " " + "<=" + " " == "preco <= ";
    case TamanhoMin => assert "tamanho" + " " + ">=" + " " == "tamanho >= ";
    case TamanhoMax => assert "tamanho" + " " + "<=" + " " == "tamanho <= ";
  }

  /** The f-strings of the three exact counts render their clauses. */
  lemma CountClauseRenders(k: FilterKind, n: int)
    requires k in {NQuartos, NBanheiros, NGaragem}
    ensures SourceClause(k, Num(n)) == Render(ClauseFor(k, Num(n)))
  {
    match k
    case NQuartos => assert "n_quartos" + " " + "=" + " " == "n_quartos = ";
    case NBanheiros => assert "n_banheiros" + " " + "=" + " " == "n_banheiros = ";
    case NGaragem => assert "n_garagem" + " " + "=" + " " == "n_garagem = ";
  }

  /** The f-strings of the three text filters render their ILIKE clauses. */
  lemma TextClauseRenders(k: FilterKind, s: string)
    requires k in {Rua, Bairro, Cidade}
    ensures SourceClause(k, Text(s)) == Render(ClauseFor(k, Text(s)))
  {
    match k
    case Rua => ILikeRenders("rua", "rua ILIKE '%", s);
    case Bairro => ILikeRenders("bairro", "bairro ILIKE '%", s);
    case Cidade => ILikeRenders("cidade", "cidade ILIKE '%", s);
  }

  /** An ILIKE f-string whose literal head names the column renders as the clause on that column. */
  lemma ILikeRenders(name: string, head: string, s: string)
    requires head == name + " ILIKE '%"
    ensures head + s + "%'" == name + " " + OpText(ILike) + " " + OperandText(Text(s))
  {
    assert " " + OpText(ILike) + " " + "'%" == " ILIKE '%";
  }

  /** Each f-string of the source is the rendering of the clause on the argument's column with the argument's operator. */
  lemma SourceClauseRenders(k: FilterKind, v: Value)
    requires WellTyped(k, v)
    ensures SourceClause(k, v) == Render(ClauseFor(k, v))
  {
    match v
    case Num(n) =>
      if k in {PrecoMin, PrecoMax, TamanhoMin, TamanhoMax} {
        BoundClauseRenders(k, n);
      } else {
        CountClauseRenders(k, n);
      }
    case Text(s) => TextClauseRenders(k, s);
  }

  /** Arguments carry values of their declared type. */
  lemma ArgWellTyped(f: Filters, k: FilterKind)
    ensures Arg(f, k).Some? ==> WellTyped(k, Arg(f, k).value)
  {
  }

  /** The argument steps of search_properties, one after the other, cover FilterOrder. */
  lemma StepsCoverOrder()
    ensures [] + [PrecoMin] + [PrecoMax] + [TamanhoMin] + [TamanhoMax] + [NQuartos] + [NBanheiros] + [NGaragem] + [Rua] + [Bairro] + [Cidade] == FilterOrder
  {
  }

  /**
    One `if <argument> is not None` step of the source: when the argument is
    set, its f-string is appended to `filters` and its value bound in
    `params` under the argument's name; otherwise nothing changes.
   */
  method AddFilter(f: Filters, ghost done: seq<FilterKind>, k: FilterKind,
                   filters: seq<string>, params: map<string, Value>)
    returns (filters': seq<string>, params': map<string, Value>)
    requires filters == RenderAll(ClausesOver(f, done)) && params == ParamsOver(f, done)
    ensures filters' == RenderAll(ClausesOver(f, done + [k]))
    ensures params' == ParamsOver(f, done + [k])
  {
    Step(f, done, k);
    filters', params' := filters, params;
    if Arg(f, k).Some? {
      var v := Arg(f, k).value;
      ArgWellTyped(f, k);
      SourceClauseRenders(k, v);
      filters' := filters + [SourceClause(k, v)];
      params' := params[ParamName(k) := ParamValue(v)];
    }
  }

  /**
    Builds the query string and the params map: the ten argument steps in
    the source's order, then the WHERE part when any clause was added. The
    database call and the markdown rendering of the result that follow in
    the source are not modelled.
   */
  method SearchQuery(f: Filters) returns (query: string, params: map<string, Value>)
    ensures query == Query(f)
    ensures params == Params(f)
  {
    query := BaseQuery;
    var filters: seq<string> := [];
    params := map[];
    ghost var done: seq<FilterKind> := [];
    filters, params := AddFilter(f, done, PrecoMin, filters, params);
    done := done + [PrecoMin];
    filters, params := AddFilter(f, done, PrecoMax, filters, params);
    done := done + [PrecoMax];
    filters, params := AddFilter(f, done, TamanhoMin, filters, params);
    done := done + [TamanhoMin];
    filters, params := AddFilter(f, done, TamanhoMax, filters, params);
    done := done + [TamanhoMax];
    filters, params := AddFilter(f, done, NQuartos, filters, params);
    done := done + [NQuartos];
    filters, params := AddFilter(f, done, NBanheiros, filters, params);
    done := done + [NBanheiros];
    filters, params := AddFilter(f, done, NGaragem, filters, params);
    done := done + [NGaragem];
    filters, params := AddFilter(f, done, Rua, filters, params);
    done := done + [Rua];
    filters, params := AddFilter(f, done, Bairro, filters, params);
    done := done + [Bairro];
    filters, params := AddFilter(f, done, Cidade, filters, params);
    done := done + [Cidade];
    StepsCoverOrder();
    if |filters| > 0 {
      query := query + " WHERE " + Join(filters, " AND ");
    }
  }

  // ---------------------------------------------------------------------
  // Which clauses appear, in which order (lines 39-68)
  // ---------------------------------------------------------------------

  /** The position of an argument in the source's chain of tests. */
  function Rank(k: FilterKind): nat {
    match k
    case PrecoMin => 0
    case PrecoMax => 1
    case TamanhoMin => 2
    case TamanhoMax => 3
    case NQuartos => 4
    case NBanheiros => 5
    case NGaragem => 6
    case Rua => 7
    case Bairro => 8
    case Cidade => 9
  }

  predicate RankIncreasing(ks: seq<FilterKind>) {
    forall i, j :: 0 <= i < j < |ks| ==> Rank(ks[i]) < Rank(ks[j])
  }

  /** FilterOrder lists every argument once, in the order of Rank. */
  lemma FilterOrderShape()
    ensures |FilterOrder| == 10
    ensures forall i :: 0 <= i < |FilterOrder| ==> Rank(FilterOrder[i]) == i
    ensures forall k :: k in FilterOrder
    ensures RankIncreasing(FilterOrder)
  {
    forall k ensures k in FilterOrder {
      assert FilterOrder[Rank(k)] == k;
    }
  }

  /** The kinds SetKindsOver keeps are exactly the set ones among `ks`, each with its one clause. */
  lemma {:induction false} KindsOver(f: Filters, ks: seq<FilterKind>)
    ensures |ClausesOver(f, ks)| == |SetKindsOver(f, ks)|
    ensures forall i :: 0 <= i < |SetKindsOver(f, ks)| ==>
              && Arg(f, SetKindsOver(f, ks)[i]).Some?
              && ClausesOver(f, ks)[i] == ClauseFor(SetKindsOver(f, ks)[i], Arg(f, SetKindsOver(f, ks)[i]).value)
    ensures forall k :: k in SetKindsOver(f, ks) <==> k in ks && Arg(f, k).Some?
  {
    if ks != [] {
      var pre := ks[..|ks| - 1];
      var k := ks[|ks| - 1];
      KindsOver(f, pre);
      assert ks == pre + [k];
      assert forall x :: x in ks <==> x in pre || x == k;
    }
  }

  /** SetKindsOver keeps the order of `ks`. */
  lemma {:induction false} KindsOverOrdered(f: Filters, ks: seq<FilterKind>)
    requires RankIncreasing(ks)
    ensures RankIncreasing(SetKindsOver(f, ks))
  {
    if ks != [] {
      var pre := ks[..|ks| - 1];
      var k := ks[|ks| - 1];
      KindsOverOrdered(f, pre);
      KindsOver(f, pre);
      forall x | x in SetKindsOver(f, pre) ensures Rank(x) < Rank(k) {
        var i :| 0 <= i < |pre| && pre[i] == x;
      }
    }
  }

  /**
    Exactly one clause per argument that is not None, in the source's order:
    the i-th clause belongs to the i-th set argument, on its column, with its
    operator and its value.
   */
  lemma ClauseListSpec(f: Filters)
    ensures |ClauseList(f)| == |SetKinds(f)|
    ensures forall k :: k in SetKinds(f) <==> Arg(f, k).Some?
    ensures RankIncreasing(SetKinds(f))
    ensures forall i :: 0 <= i < |ClauseList(f)| ==>
              && Arg(f, SetKinds(f)[i]).Some?
              && ClauseList(f)[i] == ClauseFor(SetKinds(f)[i], Arg(f, SetKinds(f)[i]).value)
    ensures ClauseList(f) == [] <==> !AnySet(f)
  {
    FilterOrderShape();
    KindsOver(f, FilterOrder);
    KindsOverOrdered(f, FilterOrder);
    if SetKinds(f) != [] {
      assert SetKinds(f)[0] in SetKinds(f);
    }
    if AnySet(f) {
      var k :| Arg(f, k).Some?;
      assert k in SetKinds(f);
    }
  }

  /** A clause appears iff it is the clause of an argument that is not None. */
  lemma ClauseMembership(f: Filters)
    ensures forall k :: Arg(f, k).Some? ==> ClauseFor(k, Arg(f, k).value) in ClauseList(f)
    ensures forall c :: c in ClauseList(f) ==> exists k :: Arg(f, k).Some? && c == ClauseFor(k, Arg(f, k).value)
  {
    ClauseListSpec(f);
    forall k | Arg(f, k).Some? ensures ClauseFor(k, Arg(f, k).value) in ClauseList(f) {
      var i :| 0 <= i < |SetKinds(f)| && SetKinds(f)[i] == k;
      assert ClauseList(f)[i] == ClauseFor(k, Arg(f, k).value);
    }
    forall c | c in ClauseList(f) ensures exists k :: Arg(f, k).Some? && c == ClauseFor(k, Arg(f, k).value) {
      var i :| 0 <= i < |ClauseList(f)| && ClauseList(f)[i] == c;
      var k := SetKinds(f)[i];
      assert Arg(f, k).Some? && c == ClauseFor(k, Arg(f, k).value);
    }
  }

  /** Zero and the empty string are values like any other: `is not None` is the only test. */
  lemma ZeroStillFilters(f: Filters)
    requires f.nQuartos == Some(0) && f.rua == Some("")
    ensures Clause(NQuartosCol, Eq, Num(0)) in ClauseList(f)
    ensures Clause(RuaCol, ILike, Text("")) in ClauseList(f)
    ensures Query(f) != BaseQuery
    ensures ParamName(NQuartos) in Params(f) && Params(f)[ParamName(NQuartos)] == Num(0)
    ensures ParamName(Rua) in Params(f) && Params(f)[ParamName(Rua)] == Text("%%")
  {
    assert Arg(f, NQuartos) == Some(Num(0));
    assert Arg(f, Rua) == Some(Text(""));
    assert Clause(NQuartosCol, Eq, Num(0)) in ClauseList(f) && Clause(RuaCol, ILike, Text("")) in ClauseList(f) by {
      ClauseMembership(f);
    }
    assert Query(f) != BaseQuery by {
      QueryShape(f);
    }
    assert ParamName(NQuartos) in Params(f) && ParamName(Rua) in Params(f) by {
      ParamsSpec(f);
    }
    assert Params(f)[ParamName(NQuartos)] == Num(0) && Params(f)[ParamName(Rua)] == Text("%%") by {
      ParamsSpec(f);
    }
  }

  /** The operator and the operand of every clause follow the kind of its argument. */
  lemma ClauseOperators(f: Filters)
    ensures |ClauseList(f)| == |SetKinds(f)|
    ensures forall i :: 0 <= i < |ClauseList(f)| ==>
              var c := ClauseList(f)[i];
              var k := SetKinds(f)[i];
              && c.column == Column(k)
              && (k in {PrecoMin, TamanhoMin} ==> c.op == Ge && c.operand.Num?)
              && (k in {PrecoMax, TamanhoMax} ==> c.op == Le && c.operand.Num?)
              && (k in {NQuartos, NBanheiros, NGaragem} ==> c.op == Eq && c.operand.Num?)
              && (k in {Rua, Bairro, Cidade} ==> c.op == ILike && c.operand.Text?)
  {
    ClauseListSpec(f);
  }

  // ---------------------------------------------------------------------
  // The params map (lines 37-68)
  // ---------------------------------------------------------------------

  /** Different arguments have different names. */
  lemma ParamNameInjective(a: FilterKind, b: FilterKind)
    ensures ParamName(a) == ParamName(b) ==> a == b
  {
  }

  lemma {:induction false} ParamsOverSpec(f: Filters, ks: seq<FilterKind>)
    ensures forall name :: name in ParamsOver(f, ks) <==> exists k :: k in ks && Arg(f, k).Some? && ParamName(k) == name
    ensures forall k :: k in ks && Arg(f, k).Some? ==> ParamsOver(f, ks)[ParamName(k)] == ParamValue(Arg(f, k).value)
  {
    if ks != [] {
      var pre := ks[..|ks| - 1];
      var last := ks[|ks| - 1];
      ParamsOverSpec(f, pre);
      assert ks == pre + [last];
      assert forall x :: x in ks <==> x in pre || x == last;
      forall k | k in ks && Arg(f, k).Some? && k != last
        ensures ParamsOver(f, ks)[ParamName(k)] == ParamValue(Arg(f, k).value)
      {
        ParamNameInjective(k, last);
      }
    }
  }

  /**
    The keys of params are exactly the names of the arguments that are not
    None, each bound to its value (a text as its `%...%` pattern).
   */
  lemma ParamsSpec(f: Filters)
    ensures forall k :: ParamName(k) in Params(f) <==> Arg(f, k).Some?
    ensures forall name :: name in Params(f) ==> exists k :: Arg(f, k).Some? && ParamName(k) == name
    ensures forall k :: Arg(f, k).Some? ==> Params(f)[ParamName(k)] == ParamValue(Arg(f, k).value)
  {
    FilterOrderShape();
    ParamsOverSpec(f, FilterOrder);
    forall k | ParamName(k) in Params(f) ensures Arg(f, k).Some? {
      var k' :| k' in FilterOrder && Arg(f, k').Some? && ParamName(k') == ParamName(k);
      ParamNameInjective(k, k');
    }
  }

  // ---------------------------------------------------------------------
  // The query text (lines 35, 70-71)
  // ---------------------------------------------------------------------

  /** Some argument is not None. */
  predicate AnySet(f: Filters) {
    exists k :: Arg(f, k).Some?
  }

  /**
    The query always starts with the base query; " WHERE " and the clauses
    joined by " AND " follow iff some argument is not None.
   */
  lemma QueryShape(f: Filters)
    ensures BaseQuery <= Query(f)
    ensures Query(f) == BaseQuery <==> !AnySet(f)
    ensures AnySet(f) ==> Query(f) == BaseQuery + " WHERE " + Join(RenderAll(ClauseList(f)), " AND ")
  {
    ClauseListSpec(f);
  }

  /** With every argument None the query is the bare base query and params is empty. */
  lemma NoFiltersQuery(f: Filters)
    requires !AnySet(f)
    ensures f == NoFilters
    ensures ClauseList(f) == []
    ensures Query(f) == BaseQuery
    ensures Params(f) == map[]
  {
    assert Arg(f, PrecoMin).None? && Arg(f, PrecoMax).None? && Arg(f, TamanhoMin).None? && Arg(f, TamanhoMax).None?;
    assert Arg(f, NQuartos).None? && Arg(f, NBanheiros).None? && Arg(f, NGaragem).None?;
    assert Arg(f, Rua).None? && Arg(f, Bairro).None? && Arg(f, Cidade).None?;
    assert ClauseList(f) == [] by {
      ClauseListSpec(f);
    }
    assert Query(f) == BaseQuery by {
      QueryShape(f);
    }
    assert Params(f) == map[] by {
      ParamsSpec(f);
    }
  }

  /** The total length of a list of strings. */
  function TotalLength(parts: seq<string>): nat {
    if parts == [] then 0 else |parts[0]| + TotalLength(parts[1..])
  }

  /** Joining n parts inserts the separator n - 1 times. */
  lemma {:induction false} JoinLength(parts: seq<string>, sep: string)
    requires parts != []
    ensures |Join(parts, sep)| == TotalLength(parts) + (|parts| - 1) * |sep|
  {
    if |parts| > 1 {
      JoinLength(parts[1..], sep);
    }
  }

  /** The i-th clause text is the rendering of the i-th clause. */
  lemma RenderAllAt(cs: seq<Clause>, i: int)
    requires 0 <= i < |cs|
    ensures |RenderAll(cs)| == |cs| && RenderAll(cs)[i] == Render(cs[i])
  {
  }

  // ---------------------------------------------------------------------
  // The rows the query selects (lines 18, 70-73)
  // ---------------------------------------------------------------------

  /** A row of the propriedades table. */
  datatype Listing = Listing(
    id: int, preco: int, tamanho: int,
    cidade: string, bairro: string, rua: string,
    nQuartos: int, nBanheiros: int, nGaragem: int)

  function Cell(p: Listing, c: Col): Value {
    match c
    case Preco => Num(p.preco)
    case Tamanho => Num(p.tamanho)
    case NQuartosCol => Num(p.nQuartos)
    case NBanheirosCol => Num(p.nBanheiros)
    case NGaragemCol => Num(p.nGaragem)
    case RuaCol => Text(p.rua)
    case BairroCol => Text(p.bairro)
    case CidadeCol => Text(p.cidade)
  }

  function LowerChar(c: char): char {
    if 'A' <= c <= 'Z' then (c as int + 32) as char else c
  }

  /** ASCII lower-casing, the case folding ILIKE applies to both sides. */
  function Lower(s: string): string {
    seq(|s|, i requires 0 <= i < |s| => LowerChar(s[i]))
  }

  /** SQL LIKE: `%` matches any run of characters, `_` any single character. */
  function Like(pat: string, t: string): bool
    decreases |pat| + |t|
  {
    if pat == [] then t == []
    else if pat[0] == '%' then Like(pat[1..], t) || (t != [] && Like(pat, t[1..]))
    else t != [] && (pat[0] == '_' || pat[0] == t[0]) && Like(pat[1..], t[1..])
  }

  function ILikeMatch(t: string, pat: string): bool {
    Like(Lower(pat), Lower(t))
  }

  /** Whether a row satisfies one clause. */
  predicate Holds(c: Clause, p: Listing) {
    var cell := Cell(p, c.column);
    match c.op
    case Ge => cell.Num? && c.operand.Num? && cell.n >= c.operand.n
    case Le => cell.Num? && c.operand.Num? && cell.n <= c.operand.n
    case Eq => cell.Num? && c.operand.Num? && cell.n == c.operand.n
    case ILike => cell.Text? && c.operand.Text? && ILikeMatch(cell.s, "%" + c.operand.s + "%")
  }

  /** The rows the built query selects: those satisfying every clause. */
  predicate MatchesQuery(f: Filters, p: Listing) {
    forall c :: c in ClauseList(f) ==> Holds(c, p)
  }

  /** `s` occurs in `t` as a contiguous piece. */
  predicate Contains(t: string, s: string) {
    exists j :: 0 <= j <= |t| - |s| && OccursAt(t, s, j)
  }

  predicate OccursAt(t: string, s: string, j: int)
    requires 0 <= j <= |t| - |s|
  {
    t[j..j + |s|] == s
  }

  predicate NoWildcards(s: string) {
    forall i :: 0 <= i < |s| ==> s[i] != '%' && s[i] != '_'
  }

  /** No text argument contains a LIKE wildcard. */
  predicate WildcardFree(f: Filters) {
    && (f.rua.Some? ==> NoWildcards(f.rua.value))
    && (f.bairro.Some? ==> NoWildcards(f.bairro.value))
    && (f.cidade.Some? ==> NoWildcards(f.cidade.value))
  }

  predicate PartialMatch(o: Option<string>, t: string) {
    o.None? || Contains(Lower(t), Lower(o.value))
  }

  /**
    The search as its docstring describes it: price and size within the
    given bounds, exact counts, partial case-insensitive text matches.
   */
  predicate Satisfies(f: Filters, p: Listing) {
    && (f.precoMin.None? || p.preco >= f.precoMin.value)
    && (f.precoMax.None? || p.preco <= f.precoMax.value)
    && (f.tamanhoMin.None? || p.tamanho >= f.tamanhoMin.value)
    && (f.tamanhoMax.None? || p.tamanho <= f.tamanhoMax.value)
    && (f.nQuartos.None? || p.nQuartos == f.nQuartos.value)
    && (f.nBanheiros.None? || p.nBanheiros == f.nBanheiros.value)
    && (f.nGaragem.None? || p.nGaragem == f.nGaragem.value)
    && PartialMatch(f.rua, p.rua)
    && PartialMatch(f.bairro, p.bairro)
    && PartialMatch(f.cidade, p.cidade)
  }

  /** `%` alone matches every text. */
  lemma {:induction false} LikePercent(t: string)
    ensures Like("%", t)
  {
    if t != [] {
      LikePercent(t[1..]);
    }
  }

  /** A leading `%` lets the rest of the pattern match any suffix. */
  lemma {:induction false} LikeLeadingPercent(q: string, t: string)
    ensures Like("%" + q, t) <==> exists j :: 0 <= j <= |t| && Like(q, t[j..])
    decreases |t|
  {
    var pat := "%" + q;
    assert pat[0] == '%' && pat[1..] == q;
    if t == [] {
      assert Like(pat, t) == Like(q, t);
      assert t[0..] == t;
    } else {
      LikeLeadingPercent(q, t[1..]);
      if Like(pat, t) {
        if Like(q, t) {
          assert t[0..] == t;
        } else {
          var j :| 0 <= j <= |t[1..]| && Like(q, t[1..][j..]);
          assert t[1..][j..] == t[j + 1..];
        }
      }
      if exists j :: 0 <= j <= |t| && Like(q, t[j..]) {
        var j :| 0 <= j <= |t| && Like(q, t[j..]);
        if j == 0 {
          assert t[j..] == t;
          assert Like(pat[1..], t);
        } else {
          assert t[1..][j - 1..] == t[j..];
          assert 0 <= j - 1 <= |t[1..]| && Like(q, t[1..][j - 1..]);
          assert Like(pat, t[1..]);
        }
      }
    }
  }

  /** A wildcard-free pattern piece matches exactly itself. */
  lemma {:induction false} LikeLiteral(s: string, rest: string, t: string)
    requires NoWildcards(s)
    ensures Like(s + rest, t) <==> |s| <= |t| && t[..|s|] == s && Like(rest, t[|s|..])
  {
    if s == [] {
      assert s + rest == rest;
      assert t[0..] == t;
    } else {
      assert (s + rest)[0] == s[0] && (s + rest)[1..] == s[1..] + rest;
      if t != [] {
        LikeLiteral(s[1..], rest, t[1..]);
        if |s| <= |t| {
          assert t[1..][|s| - 1..] == t[|s|..];
          assert t[..|s|] == [t[0]] + t[1..][..|s| - 1];
          assert s == [s[0]] + s[1..];
        }
      }
    }
  }

  /** For a wildcard-free value, `%value%` is a substring test. */
  lemma LikeContains(s: string, t: string)
    requires NoWildcards(s)
    ensures Like("%" + s + "%", t) <==> Contains(t, s)
  {
    assert "%" + s + "%" == "%" + (s + "%");
    LikeLeadingPercent(s + "%", t);
    if Like("%" + s + "%", t) {
      var j :| 0 <= j <= |t| && Like(s + "%", t[j..]);
      LikeLiteral(s, "%", t[j..]);
      assert t[j..j + |s|] == t[j..][..|s|];
      assert OccursAt(t, s, j);
    }
    if Contains(t, s) {
      var j :| 0 <= j <= |t| - |s| && OccursAt(t, s, j);
      LikeLiteral(s, "%", t[j..]);
      assert t[j..j + |s|] == t[j..][..|s|];
      LikePercent(t[j..][|s|..]);
    }
  }

  /** The pattern of a text filter folds to the pattern of the folded text. */
  lemma LowerPattern(s: string)
    ensures Lower("%" + s + "%") == "%" + Lower(s) + "%"
    ensures NoWildcards(s) ==> NoWildcards(Lower(s))
  {
  }

  /** For wildcard-free text, ILIKE '%value%' is a case-insensitive substring test. */
  lemma ILikeContains(t: string, s: string)
    requires NoWildcards(s)
    ensures ILikeMatch(t, "%" + s + "%") <==> Contains(Lower(t), Lower(s))
  {
    LowerPattern(s);
    LikeContains(Lower(s), Lower(t));
  }

  /** Values are interpolated unescaped: a street given as "_" matches every non-empty street. */
  lemma UnderscoreValueMatchesAnyText(t: string)
    ensures ILikeMatch(t, "%" + "_" + "%") <==> t != []
  {
    LowerPattern("_");
    assert "%" + Lower("_") + "%" == "%" + ("_" + "%");
    LikeLeadingPercent("_" + "%", Lower(t));
    if t != [] {
      assert Lower(t)[0..] == Lower(t);
      LikePercent(Lower(t)[1..]);
      assert ("_" + "%")[1..] == "%";
    }
  }

  /** The condition the docstring states for one argument that is set. */
  predicate FieldOk(f: Filters, k: FilterKind, p: Listing)
    requires Arg(f, k).Some?
  {
    match k
    case PrecoMin => p.preco >= f.precoMin.value
    case PrecoMax => p.preco <= f.precoMax.value
    case TamanhoMin => p.tamanho >= f.tamanhoMin.value
    case TamanhoMax => p.tamanho <= f.tamanhoMax.value
    case NQuartos => p.nQuartos == f.nQuartos.value
    case NBanheiros => p.nBanheiros == f.nBanheiros.value
    case NGaragem => p.nGaragem == f.nGaragem.value
    case Rua => Contains(Lower(p.rua), Lower(f.rua.value))
    case Bairro => Contains(Lower(p.bairro), Lower(f.bairro.value))
    case Cidade => Contains(Lower(p.cidade), Lower(f.cidade.value))
  }

  /** The clause of a set argument holds on a row iff the row meets that argument's condition. */
  lemma ClauseHolds(f: Filters, k: FilterKind, p: Listing)
    requires WildcardFree(f) && Arg(f, k).Some?
    ensures Holds(ClauseFor(k, Arg(f, k).value), p) <==> FieldOk(f, k, p)
  {
    match k
    case Rua => ILikeContains(p.rua, f.rua.value);
    case Bairro => ILikeContains(p.bairro, f.bairro.value);
    case Cidade => ILikeContains(p.cidade, f.cidade.value);
    case _ =>
  }

  /** The clause of `k`, when that argument is set, holds on the row. */
  predicate ArgHolds(f: Filters, k: FilterKind, p: Listing) {
    Arg(f, k).Some? ==> Holds(ClauseFor(k, Arg(f, k).value), p)
  }

  /** The rows the query selects are those on which every set argument's clause holds. */
  lemma MatchesByKinds(f: Filters, p: Listing)
    ensures MatchesQuery(f, p) <==> forall k :: ArgHolds(f, k, p)
  {
    ClauseMembership(f);
    if forall k :: ArgHolds(f, k, p) {
      forall c | c in ClauseList(f) ensures Holds(c, p) {
        var k :| Arg(f, k).Some? && c == ClauseFor(k, Arg(f, k).value);
        assert ArgHolds(f, k, p);
      }
    }
  }

  /** Quantifying over the arguments is testing each of the ten. */
  lemma EveryKind(f: Filters, p: Listing)
    ensures (forall k :: ArgHolds(f, k, p)) <==>
      && ArgHolds(f, PrecoMin, p)
      && ArgHolds(f, PrecoMax, p)
      && ArgHolds(f, TamanhoMin, p)
      && ArgHolds(f, TamanhoMax, p)
      && ArgHolds(f, NQuartos, p)
      && ArgHolds(f, NBanheiros, p)
      && ArgHolds(f, NGaragem, p)
      && ArgHolds(f, Rua, p)
      && ArgHolds(f, Bairro, p)
      && ArgHolds(f, Cidade, p)
  {
    if ArgHolds(f, PrecoMin, p) && ArgHolds(f, PrecoMax, p) && ArgHolds(f, TamanhoMin, p) && ArgHolds(f, TamanhoMax, p) && ArgHolds(f, NQuartos, p) && ArgHolds(f, NBanheiros, p) && ArgHolds(f, NGaragem, p) && ArgHolds(f, Rua, p) && ArgHolds(f, Bairro, p) && ArgHolds(f, Cidade, p) {
      forall k ensures ArgHolds(f, k, p) {
        match k
        case PrecoMin =>
        case PrecoMax =>
        case TamanhoMin =>
        case TamanhoMax =>
        case NQuartos =>
        case NBanheiros =>
        case NGaragem =>
        case Rua =>
        case Bairro =>
        case Cidade =>
      }
    }
  }

  /** The bounds on price and size, argument by argument. */
  lemma BoundsByKinds(f: Filters, p: Listing)
    ensures
      && (f.precoMin.None? || p.preco >= f.precoMin.value)
      && (f.precoMax.None? || p.preco <= f.precoMax.value)
      && (f.tamanhoMin.None? || p.tamanho >= f.tamanhoMin.value)
      && (f.tamanhoMax.None? || p.tamanho <= f.tamanhoMax.value)
    <==>
      && ArgHolds(f, PrecoMin, p) && ArgHolds(f, PrecoMax, p)
      && ArgHolds(f, TamanhoMin, p) && ArgHolds(f, TamanhoMax, p)
  {
  }

  /** The exact counts, argument by argument. */
  lemma CountsByKinds(f: Filters, p: Listing)
    ensures
      && (f.nQuartos.None? || p.nQuartos == f.nQuartos.value)
      && (f.nBanheiros.None? || p.nBanheiros == f.nBanheiros.value)
      && (f.nGaragem.None? || p.nGaragem == f.nGaragem.value)
    <==>
      ArgHolds(f, NQuartos, p) && ArgHolds(f, NBanheiros, p) && ArgHolds(f, NGaragem, p)
  {
  }

  /** The partial text matches, argument by argument. */
  lemma TextsByKinds(f: Filters, p: Listing)
    requires WildcardFree(f)
    ensures
      && PartialMatch(f.rua, p.rua) && PartialMatch(f.bairro, p.bairro) && PartialMatch(f.cidade, p.cidade)
    <==>
      ArgHolds(f, Rua, p) && ArgHolds(f, Bairro, p) && ArgHolds(f, Cidade, p)
  {
    if Arg(f, Rua).Some? {
      ClauseHolds(f, Rua, p);
    }
    if Arg(f, Bairro).Some? {
      ClauseHolds(f, Bairro, p);
    }
    if Arg(f, Cidade).Some? {
      ClauseHolds(f, Cidade, p);
    }
  }

  /** The conjunction of the clauses is the search the docstring describes. */
  lemma MatchesIffSatisfies(f: Filters, p: Listing)
    requires WildcardFree(f)
    ensures MatchesQuery(f, p) <==> Satisfies(f, p)
  {
    MatchesByKinds(f, p);
    EveryKind(f, p);
    BoundsByKinds(f, p);
    CountsByKinds(f, p);
    TextsByKinds(f, p);
  }

  /** With no argument set, every row matches. */
  lemma NoFiltersMatchEveryRow(f: Filters, p: Listing)
    requires !AnySet(f)
    ensures MatchesQuery(f, p)
  {
    ClauseListSpec(f);
  }

  /** `g` keeps every argument `f` sets, with the same value, and may set more. */
  predicate Extends(g: Filters, f: Filters) {
    forall k :: Arg(f, k).Some? ==> Arg(g, k) == Arg(f, k)
  }

  /** Setting more arguments never enlarges the set of matching rows. */
  lemma MoreFiltersNarrow(g: Filters, f: Filters, p: Listing)
    requires Extends(g, f)
    ensures MatchesQuery(g, p) ==> MatchesQuery(f, p)
  {
    ClauseMembership(f);
    ClauseMembership(g);
  }
}
