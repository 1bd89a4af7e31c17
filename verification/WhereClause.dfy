/** The compiler from a where specification to SQL text with numbered or positional placeholders.

    The text is modelled as its tokens. A parser with SQL's precedence (AND binds tighter than OR) and an
    evaluator in three-valued logic say what the tokens mean to the database. */
module WhereClause {
  import opened Common

  // ----- where specifications

  datatype Value = Null | Bool(b: bool) | Num(r: real) | Text(s: string) | List(items: seq<Value>)

  datatype Clause = Clause(column: string, op: string, value: Value)

  datatype WhereSpec = WhereSpec(kind: string, clauses: seq<Clause>)

  datatype BuildError = UnsafeIdentifier | UnsupportedOperator | InvalidInValues

  /** unicode.IsSpace. */
  predicate IsSpace(c: char) {
    || c == ' ' || '\t' <= c <= '\r' || c == '\U{85}' || c == '\U{A0}' || c == '\U{1680}'
    || '\U{2000}' <= c <= '\U{200A}' || c == '\U{2028}' || c == '\U{2029}' || c == '\U{202F}' || c == '\U{205F}'
    || c == '\U{3000}'
  }

  /** What separates the words of SQL, in every version of the databases: not the vertical tab, and nothing
      beyond ASCII. */
  predicate IsSqlSpace(c: char) {
    c == ' ' || c == '\t' || c == '\n' || c == '\r' || c == '\U{C}'
  }

  function TrimLeft(s: string, space: char -> bool): string {
    if s != "" && space(s[0]) then TrimLeft(s[1..], space) else s
  }

  function TrimRight(s: string, space: char -> bool): string {
    if s != "" && space(s[|s| - 1]) then TrimRight(s[..|s| - 1], space) else s
  }

  function Trim(s: string, space: char -> bool): string {
    TrimRight(TrimLeft(s, space), space)
  }

  /** An operator as it is looked up: without surrounding space and in lower case. */
  function Canonical(op: string): string {
    ToLower(Trim(op, IsSpace))
  }

  function NormalizeOp(op: string): Result<string, BuildError> {
    match Canonical(op)
    case "=" => Success("=")
    case "==" => Success("=")
    case "!=" => Success("!=")
    case "<>" => Success("!=")
    case ">" => Success(op)
    case ">=" => Success(op)
    case "<" => Success(op)
    case "<=" => Success(op)
    case "like" => Success("LIKE")
    case "in" => Success("IN")
    case _ => Failure(UnsupportedOperator)
  }

  predicate IsLetter(c: char) {
    'A' <= c <= 'Z' || 'a' <= c <= 'z' || c == '_'
  }

  predicate IsSafeIdentifier(name: string) {
    name != "" && IsLetter(name[0]) && forall i :: 0 <= i < |name| ==> IsLetter(name[i]) || '0' <= name[i] <= '9'
  }

  predicate IsPostgres(dbType: string) {
    "post" <= ToLower(dbType)
  }

  // ----- SQL

  datatype Token =
    | Ident(name: string)
    | Op(text: string)
    | Dollar(index: nat)
    | Question
    | Open
    | Close
    | Comma
    | In
    | And
    | Or

  datatype Comparison = Eq | Ne | Gt | Ge | Lt | Le | Like

  /** SQL's reading of operator text, which ignores its own kind of space around it and the case of words. */
  function ComparisonOf(text: string): Option<Comparison> {
    match AsciiLower(Trim(text, IsSqlSpace))
    case "=" => Some(Eq)
    case "!=" => Some(Ne)
    case "<>" => Some(Ne)
    case ">" => Some(Gt)
    case ">=" => Some(Ge)
    case "<" => Some(Lt)
    case "<=" => Some(Le)
    case "like" => Some(Like)
    case _ => None
  }

  datatype Truth = True | False | Unknown

  function AndT(x: Truth, y: Truth): Truth {
    if x == False || y == False then False else if x == True && y == True then True else Unknown
  }

  function OrT(x: Truth, y: Truth): Truth {
    if x == True || y == True then True else if x == False && y == False then False else Unknown
  }

  /** How the row at hand compares: by column, comparison and the other operand. */
  type RowTest = (string, Comparison, Value) -> Truth

  datatype Cond =
    | Compare(column: string, comparison: Comparison, arg: nat)
    | Member(column: string, args: seq<nat>)
    | Both(left: Cond, right: Cond)
    | Either(left: Cond, right: Cond)

  datatype Parsed = NoParse | Parsed(cond: Cond, rest: seq<Token>)

  function ParseOr(ts: seq<Token>): (p: Parsed)
    ensures p.Parsed? ==> |p.rest| < |ts|
    decreases |ts|, 2
  {
    var l := ParseAnd(ts);
    if l.Parsed? && l.rest != [] && l.rest[0] == Or then
      var r := ParseOr(l.rest[1..]);
      if r.NoParse? then NoParse else Parsed(Either(l.cond, r.cond), r.rest)
    else l
  }

  function ParseAnd(ts: seq<Token>): (p: Parsed)
    ensures p.Parsed? ==> |p.rest| < |ts|
    decreases |ts|, 1
  {
    var l := ParsePrimary(ts);
    if l.Parsed? && l.rest != [] && l.rest[0] == And then
      var r := ParseAnd(l.rest[1..]);
      if r.NoParse? then NoParse else Parsed(Both(l.cond, r.cond), r.rest)
    else l
  }

  function ParsePrimary(ts: seq<Token>): (p: Parsed)
    ensures p.Parsed? ==> |p.rest| < |ts|
    decreases |ts|, 0
  {
    if ts == [] then NoParse
    else if ts[0] == Open then
      var inner := ParseOr(ts[1..]);
      if inner.Parsed? && inner.rest != [] && inner.rest[0] == Close then Parsed(inner.cond, inner.rest[1..]) else NoParse
    else if |ts| >= 3 && ts[0].Ident? && ts[1].Op? && ts[2].Dollar? && ComparisonOf(ts[1].text).Some? then
      Parsed(Compare(ts[0].name, ComparisonOf(ts[1].text).value, ts[2].index), ts[3..])
    else if |ts| >= 3 && ts[0].Ident? && ts[1] == In && ts[2] == Open then
      var (args, rest) := ParseArgs(ts[3..]);
      if args == [] then NoParse else Parsed(Member(ts[0].name, args), rest)
    else NoParse
  }

  /** A list of placeholders up to its closing parenthesis; an empty list stands for no parse. */
  function ParseArgs(ts: seq<Token>): (r: (seq<nat>, seq<Token>))
    ensures |r.1| <= |ts|
  {
    if |ts| >= 2 && ts[0].Dollar? && ts[1] == Close then ([ts[0].index], ts[2..])
    else if |ts| >= 2 && ts[0].Dollar? && ts[1] == Comma then
      var (args, rest) := ParseArgs(ts[2..]);
      if args == [] then ([], []) else ([ts[0].index] + args, rest)
    else ([], [])
  }

  /** Positional placeholders are bound in text order. */
  function Number(ts: seq<Token>, next: nat): seq<Token> {
    if ts == [] then []
    else if ts[0] == Question then [Dollar(next)] + Number(ts[1..], next + 1)
    else [ts[0]] + Number(ts[1..], next)
  }

  function Arg(args: seq<Value>, k: nat): Option<Value> {
    if 1 <= k <= |args| then Some(args[k - 1]) else None
  }

  function AnyEqual(column: string, values: seq<Value>, test: RowTest): Truth {
    if values == [] then False else OrT(test(column, Eq, values[0]), AnyEqual(column, values[1..], test))
  }

  function ArgsAt(args: seq<Value>, ks: seq<nat>): Option<seq<Value>> {
    if ks == [] then Some([])
    else
      var first, rest := Arg(args, ks[0]), ArgsAt(args, ks[1..]);
      if first.None? || rest.None? then None else Some([first.value] + rest.value)
  }

  /** None when a placeholder has no argument. */
  function EvalCond(c: Cond, args: seq<Value>, test: RowTest): Option<Truth> {
    match c
    case Compare(column, comparison, k) =>
      var v := Arg(args, k);
      if v.None? then None else Some(test(column, comparison, v.value))
    case Member(column, ks) =>
      var vs := ArgsAt(args, ks);
      if vs.None? then None else Some(AnyEqual(column, vs.value, test))
    case Both(l, r) =>
      var x, y := EvalCond(l, args, test), EvalCond(r, args, test);
      if x.None? || y.None? then None else Some(AndT(x.value, y.value))
    case Either(l, r) =>
      var x, y := EvalCond(l, args, test), EvalCond(r, args, test);
      if x.None? || y.None? then None else Some(OrT(x.value, y.value))
  }

  /** What a whole condition means to the database; None when it is not a condition or an argument is missing. */
  function EvalSql(ts: seq<Token>, args: seq<Value>, test: RowTest): Option<Truth> {
    var p := ParseOr(Number(ts, 1));
    if p.Parsed? && p.rest == [] then EvalCond(p.cond, args, test) else None
  }

  // ----- what a where specification means

  function ClauseMeaning(c: Clause, test: RowTest): Truth {
    match Canonical(c.op)
    case "=" => test(c.column, Eq, c.value)
    case "==" => test(c.column, Eq, c.value)
    case "!=" => test(c.column, Ne, c.value)
    case "<>" => test(c.column, Ne, c.value)
    case ">" => test(c.column, Gt, c.value)
    case ">=" => test(c.column, Ge, c.value)
    case "<" => test(c.column, Lt, c.value)
    case "<=" => test(c.column, Le, c.value)
    case "like" => test(c.column, Like, c.value)
    case _ => AnyEqual(c.column, if c.value.List? then c.value.items else [], test)
  }

  function AllOf(clauses: seq<Clause>, test: RowTest): Truth {
    if clauses == [] then True else AndT(ClauseMeaning(clauses[0], test), AllOf(clauses[1..], test))
  }

  function AnyOf(clauses: seq<Clause>, test: RowTest): Truth {
    if clauses == [] then False else OrT(ClauseMeaning(clauses[0], test), AnyOf(clauses[1..], test))
  }

  predicate JoinsByOr(where: WhereSpec) {
    ToLower(where.kind) == "or"
  }

  /** No specification, or one without clauses, lets every row through. */
  function Meaning(where: Option<WhereSpec>, test: RowTest): Truth {
    if where.None? || where.value.clauses == [] then True
    else if JoinsByOr(where.value) then AnyOf(where.value.clauses, test)
    else AllOf(where.value.clauses, test)
  }

  // ----- the compiler

  function ClauseError(c: Clause): Option<BuildError> {
    if !IsSafeIdentifier(c.column) then Some(UnsafeIdentifier)
    else if NormalizeOp(c.op).Failure? then Some(NormalizeOp(c.op).error)
    else if NormalizeOp(c.op).value == "IN" && (!c.value.List? || c.value.items == []) then Some(InvalidInValues)
    else None
  }

  /** The error of the first clause that has one. */
  function FirstError(clauses: seq<Clause>): Option<BuildError> {
    if clauses == [] then None
    else if ClauseError(clauses[0]).Some? then ClauseError(clauses[0])
    else FirstError(clauses[1..])
  }

  predicate IsIn(c: Clause) {
    NormalizeOp(c.op) == Success("IN")
  }

  function ClauseArgs(c: Clause): seq<Value> {
    if IsIn(c) then (if c.value.List? then c.value.items else []) else [c.value]
  }

  function ArgsOf(clauses: seq<Clause>): seq<Value> {
    if clauses == [] then [] else ClauseArgs(clauses[0]) + ArgsOf(clauses[1..])
  }

  function Placeholder(postgres: bool, index: nat): Token {
    if postgres then Dollar(index) else Question
  }

  /** n placeholders, numbered from index on, with commas between them. */
  function PlaceholderList(postgres: bool, index: nat, n: nat): seq<Token>
    decreases n
  {
    if n == 0 then []
    else if n == 1 then [Placeholder(postgres, index)]
    else [Placeholder(postgres, index), Comma] + PlaceholderList(postgres, index + 1, n - 1)
  }

  function ClauseTokens(c: Clause, postgres: bool, index: nat): seq<Token> {
    if IsIn(c) then [Ident(c.column), In, Open] + PlaceholderList(postgres, index, |ClauseArgs(c)|) + [Close]
    else [Ident(c.column), Op(if NormalizeOp(c.op).Success? then NormalizeOp(c.op).value else ""), Placeholder(postgres, index)]
  }

  function Pieces(clauses: seq<Clause>, postgres: bool, index: nat): seq<seq<Token>> {
    if clauses == [] then []
    else [ClauseTokens(clauses[0], postgres, index)] + Pieces(clauses[1..], postgres, index + |ClauseArgs(clauses[0])|)
  }

  function Join(pieces: seq<seq<Token>>, joiner: Token): seq<Token> {
    if pieces == [] then [] else if |pieces| == 1 then pieces[0] else pieces[0] + [joiner] + Join(pieces[1..], joiner)
  }

  datatype Built = Built(tokens: seq<Token>, args: seq<Value>, next: nat)

  function Build(dbType: string, where: Option<WhereSpec>, startIndex: nat): Result<Built, BuildError> {
    if where.None? || where.value.clauses == [] then Success(Built([], [], startIndex))
    else
      var clauses := where.value.clauses;
      if FirstError(clauses).Some? then Failure(FirstError(clauses).value)
      else
        var tokens := Join(Pieces(clauses, IsPostgres(dbType), startIndex), if JoinsByOr(where.value) then Or else And);
        Success(Built(tokens, ArgsOf(clauses), startIndex + |ArgsOf(clauses)|))
  }

  method BuildWhereClause(dbType: string, where: Option<WhereSpec>, startIndex: nat) returns (r: Result<Built, BuildError>)
    ensures r == Build(dbType, where, startIndex)
  {
    hide ToLower, IsPostgres, FirstError, Pieces, Join, ArgsOf;
    if where.None? || |where.value.clauses| == 0 {
      return Success(Built([], [], startIndex));
    }
    var joiner := And;
    if ToLower(where.value.kind) == "or" {
      joiner := Or;
    }
    r := CompileClauses(where.value.clauses, IsPostgres(dbType), startIndex, joiner);
  }

  /** The loop over the clauses, and the joining of their texts. */
  method CompileClauses(spec: seq<Clause>, postgres: bool, startIndex: nat, joiner: Token)
    returns (r: Result<Built, BuildError>)
    ensures r == if FirstError(spec).Some? then Failure(FirstError(spec).value)
                 else Success(Built(Join(Pieces(spec, postgres, startIndex), joiner), ArgsOf(spec),
                                    startIndex + |ArgsOf(spec)|))
  {
    hide *;
    var clauses: seq<seq<Token>> := [];
    var args: seq<Value> := [];
    var idx: nat := startIndex;
    for n := 0 to |spec|
      invariant FirstError(spec) == FirstError(spec[n..])
      invariant clauses + Pieces(spec[n..], postgres, idx) == Pieces(spec, postgres, startIndex)
      invariant args + ArgsOf(spec[n..]) == ArgsOf(spec)
      invariant idx == startIndex + |args|
    {
      SuffixStep(spec, n, postgres, idx);
      var piece := CompileClause(spec[n], postgres, idx);
      if piece.Failure? {
        return Failure(piece.error);
      }
      clauses := clauses + [piece.value.tokens];
      args := args + piece.value.args;
      idx := piece.value.next;
    }
    SuffixEnd(spec, postgres, idx);
    assert clauses == Pieces(spec, postgres, startIndex) && args == ArgsOf(spec);
    return Success(Built(Join(clauses, joiner), args, idx));
  }

  lemma SuffixStep(spec: seq<Clause>, n: nat, postgres: bool, idx: nat)
    requires n < |spec|
    ensures FirstError(spec[n..]) == if ClauseError(spec[n]).Some? then ClauseError(spec[n]) else FirstError(spec[n + 1..])
    ensures Pieces(spec[n..], postgres, idx)
         == [ClauseTokens(spec[n], postgres, idx)] + Pieces(spec[n + 1..], postgres, idx + |ClauseArgs(spec[n])|)
    ensures ArgsOf(spec[n..]) == ClauseArgs(spec[n]) + ArgsOf(spec[n + 1..])
  {
    hide ClauseTokens, ClauseArgs, ClauseError;
    assert spec[n..][0] == spec[n] && spec[n..][1..] == spec[n + 1..];
  }

  lemma SuffixEnd(spec: seq<Clause>, postgres: bool, idx: nat)
    ensures FirstError(spec[|spec|..]).None? && Pieces(spec[|spec|..], postgres, idx) == [] && ArgsOf(spec[|spec|..]) == []
  {
  }

  /** One pass of the loop: the clause's text, its arguments and the next index. */
  method CompileClause(clause: Clause, postgres: bool, idx: nat) returns (r: Result<Built, BuildError>)
    ensures r == if ClauseError(clause).Some? then Failure(ClauseError(clause).value)
                 else Success(Built(ClauseTokens(clause, postgres, idx), ClauseArgs(clause), idx + |ClauseArgs(clause)|))
  {
    if !IsSafeIdentifier(clause.column) {
      return Failure(UnsafeIdentifier);
    }
    var op := NormalizeOp(clause.op);
    if op.Failure? {
      return Failure(op.error);
    }
    if op.value == "IN" {
      if !clause.value.List? || |clause.value.items| == 0 {
        return Failure(InvalidInValues);
      }
      var values := clause.value.items;
      var placeholders := ListPlaceholders(postgres, idx, |values|);
      return Success(Built([Ident(clause.column), In, Open] + placeholders + [Close], values, idx + |values|));
    }
    return Success(Built([Ident(clause.column), Op(op.value), Placeholder(postgres, idx)], [clause.value], idx + 1));
  }

  /** The inner loop of the IN case, its placeholders joined with commas. */
  method ListPlaceholders(postgres: bool, index: nat, n: nat) returns (list: seq<Token>)
    ensures list == PlaceholderList(postgres, index, n)
  {
    list := [];
    for k := 0 to n
      invariant list == PlaceholderList(postgres, index, k)
    {
      if k > 0 {
        OneMorePlaceholder(postgres, index, k);
        list := list + [Comma];
      }
      list := list + [Placeholder(postgres, index + k)];
    }
  }

  lemma {:induction false} OneMorePlaceholder(postgres: bool, index: nat, n: nat)
    requires n > 0
    ensures PlaceholderList(postgres, index, n + 1)
         == PlaceholderList(postgres, index, n) + [Comma] + [Placeholder(postgres, index + n)]
    decreases n
  {
    if n > 1 { OneMorePlaceholder(postgres, index + 1, n - 1); }
  }

  // ----- the assembled query condition

  /** The condition of an aggregate or a recent-rows query, with its arguments: the time bound first, then the
      where text in parentheses. */
  method AssembleCondition(dbType: string, timestampColumn: string, since: Value, where: Option<WhereSpec>)
    returns (r: Result<Built, BuildError>)
    ensures !IsSafeIdentifier(timestampColumn) ==> r == Failure(UnsafeIdentifier)
    ensures IsSafeIdentifier(timestampColumn) ==> r == Assembled(dbType, timestampColumn, since, where)
  {
    if !IsSafeIdentifier(timestampColumn) {
      return Failure(UnsafeIdentifier);
    }
    var built := BuildWhereClause(dbType, where, 2);
    if built.Failure? {
      return Failure(built.error);
    }
    var tokens := [Ident(timestampColumn), Op(">="), Placeholder(IsPostgres(dbType), 1)];
    if built.value.tokens != [] {
      tokens := tokens + ([And, Open] + built.value.tokens + [Close]);
    }
    assert tokens == [Ident(timestampColumn), Op(">="), Placeholder(IsPostgres(dbType), 1)]
                   + (if built.value.tokens == [] then [] else [And, Open] + built.value.tokens + [Close]);
    return Success(Built(tokens, [since] + built.value.args, built.value.next));
  }

  function Assembled(dbType: string, timestampColumn: string, since: Value, where: Option<WhereSpec>): Result<Built, BuildError> {
    var built := Build(dbType, where, 2);
    if built.Failure? then Failure(built.error)
    else
      var time := [Ident(timestampColumn), Op(">="), Placeholder(IsPostgres(dbType), 1)];
      var rest := if built.value.tokens == [] then [] else [And, Open] + built.value.tokens + [Close];
      Success(Built(time + rest, [since] + built.value.args, built.value.next))
  }
}
