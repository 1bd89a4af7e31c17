/** The compiled condition means what the where specification means, and its placeholders bind the
    arguments one to one. */
module WhereMeaning {
  import opened Common
  import opened WhereClause

  // ----- the operators that SQL reads

  predicate OnlySqlSpace(op: string) {
    forall i :: 0 <= i < |op| && IsSpace(op[i]) ==> IsSqlSpace(op[i])
  }

  /** An ordering operator is emitted as it was given, with the space around it; the others are not. */
  predicate EmittedAsGiven(op: string) {
    Canonical(op) in [">", ">=", "<", "<="]
  }

  predicate ReadBySql(op: string) {
    EmittedAsGiven(op) ==> OnlySqlSpace(op)
  }

  lemma {:induction false} TrimLeftKeeps(s: string, space: char -> bool)
    ensures forall c :: c in TrimLeft(s, space) ==> c in s
    ensures forall c :: c in s ==> space(c) || c in TrimLeft(s, space)
  {
    if s != "" && space(s[0]) {
      TrimLeftKeeps(s[1..], space);
      assert s == [s[0]] + s[1..];
    }
  }

  lemma {:induction false} TrimRightKeeps(s: string, space: char -> bool)
    ensures forall c :: c in TrimRight(s, space) ==> c in s
    ensures forall c :: c in s ==> space(c) || c in TrimRight(s, space)
  {
    if s != "" && space(s[|s| - 1]) {
      TrimRightKeeps(s[..|s| - 1], space);
      assert s == s[..|s| - 1] + [s[|s| - 1]];
    }
  }

  /** Trimming takes away space only. */
  lemma TrimKeeps(s: string, space: char -> bool)
    ensures forall c :: c in s ==> space(c) || c in Trim(s, space)
  {
    TrimLeftKeeps(s, space);
    TrimRightKeeps(TrimLeft(s, space), space);
  }

  lemma {:induction false} SameTrimLeft(s: string, p: char -> bool, q: char -> bool)
    requires forall c :: c in s ==> p(c) == q(c)
    ensures TrimLeft(s, p) == TrimLeft(s, q)
  {
    if s != "" && p(s[0]) {
      SameTrimLeft(s[1..], p, q);
    }
  }

  lemma {:induction false} SameTrimRight(s: string, p: char -> bool, q: char -> bool)
    requires forall c :: c in s ==> p(c) == q(c)
    ensures TrimRight(s, p) == TrimRight(s, q)
  {
    if s != "" && p(s[|s| - 1]) {
      SameTrimRight(s[..|s| - 1], p, q);
    }
  }

  lemma SameTrim(s: string, p: char -> bool, q: char -> bool)
    requires forall c :: c in s ==> p(c) == q(c)
    ensures Trim(s, p) == Trim(s, q)
  {
    TrimLeftKeeps(s, p);
    SameTrimLeft(s, p, q);
    SameTrimRight(TrimLeft(s, p), p, q);
  }

  /** Lower case only matters for letters. */
  lemma OrderingHasNoCase(s: string)
    ensures ToLower(s) in [">", ">=", "<", "<="] ==> ToLower(s) == s
    ensures s in [">", ">=", "<", "<=", "=", "!="] ==> AsciiLower(s) == s && ToLower(s) == s
  {
    assert forall i :: 0 <= i < |s| ==> ToLower(s)[i] in ['>', '<', '='] ==> s[i] == ToLower(s)[i];
  }

  lemma ReadTextHasNoSpace(w: string, c: char)
    requires AsciiLower(w) in ["=", "!=", "<>", ">", ">=", "<", "<=", "like"] && c in w
    ensures !IsSpace(c)
  {
    var i :| 0 <= i < |w| && w[i] == c;
    assert AsciiLower(w)[i] in ['=', '!', '<', '>', 'l', 'i', 'k', 'e'];
  }

  /** An operator that is emitted as it was given is read exactly when the space around it is SQL's, and then as
      itself. */
  lemma OrderingReadExactly(op: string)
    requires EmittedAsGiven(op)
    ensures ComparisonOf(op).Some? <==> OnlySqlSpace(op)
    ensures OnlySqlSpace(op) ==> AsciiLower(Trim(op, IsSqlSpace)) == Canonical(op)
  {
    if OnlySqlSpace(op) {
      SameTrim(op, IsSpace, IsSqlSpace);
      OrderingHasNoCase(Trim(op, IsSpace));
    }
    if ComparisonOf(op).Some? {
      TrimKeeps(op, IsSqlSpace);
      forall i | 0 <= i < |op| && IsSpace(op[i]) ensures IsSqlSpace(op[i]) {
        assert op[i] in op;
        if op[i] in Trim(op, IsSqlSpace) {
          ReadTextHasNoSpace(Trim(op, IsSqlSpace), op[i]);
        }
      }
    }
  }

  /** An operator that is let through is read by SQL if and only if it is not emitted with space that is not
      SQL's, and then as the comparison that was asked for. */
  lemma OperatorReadExactly(op: string)
    requires NormalizeOp(op).Success? && NormalizeOp(op).value != "IN"
    ensures ComparisonOf(NormalizeOp(op).value).Some? <==> ReadBySql(op)
    ensures ReadBySql(op) ==>
              forall column, v, test: RowTest ::
                ClauseMeaning(Clause(column, op, v), test) == test(column, ComparisonOf(NormalizeOp(op).value).value, v)
  {
    EmittedWords();
    if EmittedAsGiven(op) {
      OrderingReadExactly(op);
    }
  }

  lemma EmittedWords()
    ensures ComparisonOf("=") == Some(Eq) && ComparisonOf("!=") == Some(Ne) && ComparisonOf("LIKE") == Some(Like)
    ensures ComparisonOf(">=") == Some(Ge)
  {
    OrderingHasNoCase("=");
    OrderingHasNoCase("!=");
    OrderingHasNoCase(">=");
    assert AsciiLower("LIKE") == "like";
  }

  /** An operator after a no-break space is let through, and SQL does not read it. */
  lemma NoBreakSpaceNotRead()
    ensures NormalizeOp("\U{A0}>=") == Success("\U{A0}>=") && ComparisonOf("\U{A0}>=").None?
  {
    var op := "\U{A0}>=";
    assert op[1..] == ">=";
    assert Trim(op, IsSpace) == ">=";
    OrderingHasNoCase(">=");
    assert Canonical(op) == ">=";
    assert IsSpace(op[0]) && !IsSqlSpace(op[0]);
    OrderingReadExactly(op);
  }

  predicate Readable(clauses: seq<Clause>) {
    clauses == [] || (ReadBySql(clauses[0].op) && Readable(clauses[1..]))
  }

  lemma {:induction false} ReadableIffAllAre(clauses: seq<Clause>)
    ensures Readable(clauses) <==> forall i :: 0 <= i < |clauses| ==> ReadBySql(clauses[i].op)
  {
    if clauses != [] { ReadableIffAllAre(clauses[1..]); }
  }

  predicate Valid(clauses: seq<Clause>) {
    clauses != [] && FirstError(clauses).None? && Readable(clauses)
  }

  // ----- parsing back what was emitted

  function Range(index: nat, n: nat): seq<nat>
    decreases n
  {
    if n == 0 then [] else [index] + Range(index + 1, n - 1)
  }

  function CondOf(c: Clause, index: nat): Cond
    requires ClauseError(c).None? && ReadBySql(c.op)
  {
    if IsIn(c) then Member(c.column, Range(index, |ClauseArgs(c)|))
    else
      OperatorReadExactly(c.op);
      Compare(c.column, ComparisonOf(NormalizeOp(c.op).value).value, index)
  }

  function Conjunction(clauses: seq<Clause>, index: nat): Cond
    requires Valid(clauses)
  {
    var first := CondOf(clauses[0], index);
    if |clauses| == 1 then first
    else
      FirstErrorOfRest(clauses);
      Both(first, Conjunction(clauses[1..], index + |ClauseArgs(clauses[0])|))
  }

  function Disjunction(clauses: seq<Clause>, index: nat): Cond
    requires Valid(clauses)
  {
    var first := CondOf(clauses[0], index);
    if |clauses| == 1 then first
    else
      FirstErrorOfRest(clauses);
      Either(first, Disjunction(clauses[1..], index + |ClauseArgs(clauses[0])|))
  }

  lemma FirstErrorOfRest(clauses: seq<Clause>)
    requires Valid(clauses)
    ensures clauses != [] && ClauseError(clauses[0]).None? && FirstError(clauses[1..]).None?
    ensures ReadBySql(clauses[0].op) && Readable(clauses[1..])
  {
  }

  lemma {:induction false} ParsePlaceholders(index: nat, n: nat, rest: seq<Token>)
    requires n > 0
    ensures ParseArgs(PlaceholderList(true, index, n) + [Close] + rest) == (Range(index, n), rest)
    decreases n
  {
    var ts := PlaceholderList(true, index, n) + [Close] + rest;
    if n == 1 {
      assert ts == [Dollar(index), Close] + rest;
      assert Range(index, 1) == [index] + Range(index + 1, 0) == [index];
    } else {
      ParsePlaceholders(index + 1, n - 1, rest);
      assert ts == [Dollar(index), Comma] + (PlaceholderList(true, index + 1, n - 1) + [Close] + rest);
      assert Range(index + 1, n - 1) != [];
    }
  }

  lemma ParseClause(c: Clause, index: nat, rest: seq<Token>)
    requires ClauseError(c).None? && ReadBySql(c.op)
    ensures ParsePrimary(ClauseTokens(c, true, index) + rest) == Parsed(CondOf(c, index), rest)
  {
    var ts := ClauseTokens(c, true, index) + rest;
    if IsIn(c) {
      ParsePlaceholders(index, |ClauseArgs(c)|, rest);
      assert ts == [Ident(c.column), In, Open] + (PlaceholderList(true, index, |ClauseArgs(c)|) + [Close] + rest);
      assert Range(index, |ClauseArgs(c)|) != [];
    } else {
      OperatorReadExactly(c.op);
      assert ts == [Ident(c.column), Op(NormalizeOp(c.op).value), Dollar(index)] + rest;
    }
  }

  predicate StartsWith(ts: seq<Token>, t: Token) {
    ts != [] && ts[0] == t
  }

  lemma {:induction false} ParseConjunction(clauses: seq<Clause>, index: nat, rest: seq<Token>)
    requires Valid(clauses) && !StartsWith(rest, And)
    ensures ParseAnd(Join(Pieces(clauses, true, index), And) + rest) == Parsed(Conjunction(clauses, index), rest)
    decreases |clauses|
  {
    hide *;
    FirstErrorOfRest(clauses);
    ConjunctionStep(clauses, index, (column, comparison, v) => Unknown);
    var first := ClauseTokens(clauses[0], true, index);
    if |clauses| == 1 {
      JoinOne(clauses, true, index, And);
      ParseClause(clauses[0], index, rest);
      ParseAlone(first + rest, CondOf(clauses[0], index), rest);
    } else {
      ValidRest(clauses);
      var next := index + |ClauseArgs(clauses[0])|;
      var tail := Join(Pieces(clauses[1..], true, next), And);
      ParseConjunction(clauses[1..], next, rest);
      JoinStep(clauses, true, index, And);
      assert Join(Pieces(clauses, true, index), And) + rest == first + ([And] + (tail + rest));
      ParseClause(clauses[0], index, [And] + (tail + rest));
      ParseAndStep(first + ([And] + (tail + rest)), CondOf(clauses[0], index), tail + rest,
                   Conjunction(clauses[1..], next), rest);
    }
  }

  lemma ParseAndStep(ts: seq<Token>, left: Cond, more: seq<Token>, right: Cond, rest: seq<Token>)
    requires ParsePrimary(ts) == Parsed(left, [And] + more) && ParseAnd(more) == Parsed(right, rest)
    ensures ParseAnd(ts) == Parsed(Both(left, right), rest)
  {
    assert ([And] + more)[1..] == more;
  }

  lemma ParseOrStep(ts: seq<Token>, left: Cond, more: seq<Token>, right: Cond, rest: seq<Token>)
    requires ParsePrimary(ts) == Parsed(left, [Or] + more) && ParseOr(more) == Parsed(right, rest)
    ensures ParseOr(ts) == Parsed(Either(left, right), rest)
  {
    assert ([Or] + more)[1..] == more;
    assert ParseAnd(ts) == ParsePrimary(ts);
  }

  lemma ParseOrOfAnd(ts: seq<Token>, cond: Cond)
    requires ParseAnd(ts) == Parsed(cond, [])
    ensures ParseOr(ts) == Parsed(cond, [])
  {
  }

  lemma ParseAlone(ts: seq<Token>, cond: Cond, rest: seq<Token>)
    requires ParsePrimary(ts) == Parsed(cond, rest) && !StartsWith(rest, And)
    ensures ParseAnd(ts) == Parsed(cond, rest)
    ensures !StartsWith(rest, Or) ==> ParseOr(ts) == Parsed(cond, rest)
  {
  }

  lemma JoinOne(clauses: seq<Clause>, postgres: bool, index: nat, joiner: Token)
    requires |clauses| == 1
    ensures Join(Pieces(clauses, postgres, index), joiner) == ClauseTokens(clauses[0], postgres, index)
  {
    assert Pieces(clauses, postgres, index) == [ClauseTokens(clauses[0], postgres, index)];
  }

  lemma JoinStep(clauses: seq<Clause>, postgres: bool, index: nat, joiner: Token)
    requires |clauses| >= 2
    ensures Join(Pieces(clauses, postgres, index), joiner)
         == ClauseTokens(clauses[0], postgres, index)
          + ([joiner] + Join(Pieces(clauses[1..], postgres, index + |ClauseArgs(clauses[0])|), joiner))
  {
    hide ClauseTokens, ClauseArgs;
    var next := index + |ClauseArgs(clauses[0])|;
    var pieces := Pieces(clauses, postgres, index);
    assert pieces[1..] == Pieces(clauses[1..], postgres, next);
    assert Pieces(clauses[1..], postgres, next) != [];
  }

  lemma {:induction false} ParseDisjunction(clauses: seq<Clause>, index: nat, rest: seq<Token>)
    requires Valid(clauses) && !StartsWith(rest, And) && !StartsWith(rest, Or)
    ensures ParseOr(Join(Pieces(clauses, true, index), Or) + rest) == Parsed(Disjunction(clauses, index), rest)
    decreases |clauses|
  {
    hide *;
    FirstErrorOfRest(clauses);
    DisjunctionStep(clauses, index, (column, comparison, v) => Unknown);
    var first := ClauseTokens(clauses[0], true, index);
    if |clauses| == 1 {
      JoinOne(clauses, true, index, Or);
      ParseClause(clauses[0], index, rest);
      ParseAlone(first + rest, CondOf(clauses[0], index), rest);
    } else {
      ValidRest(clauses);
      var next := index + |ClauseArgs(clauses[0])|;
      var tail := Join(Pieces(clauses[1..], true, next), Or);
      ParseDisjunction(clauses[1..], next, rest);
      JoinStep(clauses, true, index, Or);
      assert Join(Pieces(clauses, true, index), Or) + rest == first + ([Or] + (tail + rest));
      ParseClause(clauses[0], index, [Or] + (tail + rest));
      ParseOrStep(first + ([Or] + (tail + rest)), CondOf(clauses[0], index), tail + rest,
                   Disjunction(clauses[1..], next), rest);
    }
  }

  function WhereCond(where: WhereSpec, index: nat): Cond
    requires Valid(where.clauses)
  {
    if JoinsByOr(where) then Disjunction(where.clauses, index) else Conjunction(where.clauses, index)
  }

  function Joiner(where: WhereSpec): Token {
    if JoinsByOr(where) then Or else And
  }

  lemma ParseWhere(where: WhereSpec, index: nat, rest: seq<Token>)
    requires Valid(where.clauses) && !StartsWith(rest, And) && !StartsWith(rest, Or)
    ensures ParseOr(Join(Pieces(where.clauses, true, index), Joiner(where)) + rest) == Parsed(WhereCond(where, index), rest)
  {
    if JoinsByOr(where) {
      ParseDisjunction(where.clauses, index, rest);
    } else {
      ParseConjunction(where.clauses, index, rest);
    }
  }

  // ----- an operator that SQL does not read spoils the whole text

  lemma ParseUnreadClause(c: Clause, index: nat, rest: seq<Token>)
    requires ClauseError(c).None? && !ReadBySql(c.op)
    ensures ParsePrimary(ClauseTokens(c, true, index) + rest) == NoParse
  {
    var ts := ClauseTokens(c, true, index) + rest;
    NotInIsNotIn(c.op);
    OperatorReadExactly(c.op);
    assert ts == [Ident(c.column), Op(NormalizeOp(c.op).value), Dollar(index)] + rest;
  }

  lemma NotInIsNotIn(op: string)
    requires EmittedAsGiven(op)
    ensures NormalizeOp(op) == Success(op) && op != "IN"
  {
    assert Trim("IN", IsSpace) == "IN" && ToLower("IN")[0] == 'i';
  }

  lemma ParseNoPrimary(ts: seq<Token>)
    requires ParsePrimary(ts) == NoParse
    ensures ParseAnd(ts) == NoParse && ParseOr(ts) == NoParse
  {
  }

  lemma ParseAndFails(ts: seq<Token>, left: Cond, more: seq<Token>)
    requires ParsePrimary(ts) == Parsed(left, [And] + more) && ParseAnd(more) == NoParse
    ensures ParseAnd(ts) == NoParse && ParseOr(ts) == NoParse
  {
    assert ([And] + more)[1..] == more;
  }

  lemma ParseOrFails(ts: seq<Token>, left: Cond, more: seq<Token>)
    requires ParsePrimary(ts) == Parsed(left, [Or] + more) && ParseOr(more) == NoParse
    ensures ParseOr(ts) == NoParse
  {
    assert ([Or] + more)[1..] == more;
    assert ParseAnd(ts) == ParsePrimary(ts);
  }

  lemma UnreadableStep(clauses: seq<Clause>)
    requires clauses != [] && FirstError(clauses).None? && !Readable(clauses)
    ensures ClauseError(clauses[0]).None?
    ensures ReadBySql(clauses[0].op) ==> |clauses| > 1 && FirstError(clauses[1..]).None? && !Readable(clauses[1..])
  {
    hide ClauseError, ReadBySql;
  }

  lemma {:induction false} ParseUnreadable(clauses: seq<Clause>, index: nat, joiner: Token, rest: seq<Token>)
    requires clauses != [] && FirstError(clauses).None? && !Readable(clauses) && (joiner == And || joiner == Or)
    ensures ParseOr(Join(Pieces(clauses, true, index), joiner) + rest) == NoParse
    ensures joiner == And ==> ParseAnd(Join(Pieces(clauses, true, index), joiner) + rest) == NoParse
    decreases |clauses|
  {
    hide *;
    UnreadableStep(clauses);
    var first := ClauseTokens(clauses[0], true, index);
    if |clauses| == 1 {
      JoinOne(clauses, true, index, joiner);
      ParseUnreadClause(clauses[0], index, rest);
      ParseNoPrimary(first + rest);
    } else {
      var next := index + |ClauseArgs(clauses[0])|;
      var tail := Join(Pieces(clauses[1..], true, next), joiner);
      var more := [joiner] + (tail + rest);
      JoinStep(clauses, true, index, joiner);
      assert Join(Pieces(clauses, true, index), joiner) + rest == first + more;
      if ReadBySql(clauses[0].op) {
        ParseUnreadable(clauses[1..], next, joiner, rest);
        ParseClause(clauses[0], index, more);
        if joiner == And {
          ParseAndFails(first + more, CondOf(clauses[0], index), tail + rest);
        } else {
          ParseOrFails(first + more, CondOf(clauses[0], index), tail + rest);
        }
      } else {
        ParseUnreadClause(clauses[0], index, more);
        ParseNoPrimary(first + more);
      }
    }
  }

  // ----- evaluating it

  /** args holds these values from the index-th on, counting from 1. */
  predicate Holds(args: seq<Value>, index: nat, values: seq<Value>) {
    1 <= index && index - 1 + |values| <= |args| && args[index - 1..index - 1 + |values|] == values
  }

  lemma {:induction false} ArgsOfRange(args: seq<Value>, index: nat, values: seq<Value>)
    requires Holds(args, index, values)
    ensures ArgsAt(args, Range(index, |values|)) == Some(values)
    decreases |values|
  {
    if values != [] {
      var n := |values|;
      assert args[index - 1] == args[index - 1..index - 1 + n][0] == values[0];
      assert args[index..index + n - 1] == args[index - 1..index - 1 + n][1..] == values[1..];
      ArgsOfRange(args, index + 1, values[1..]);
      assert Range(index, n)[1..] == Range(index + 1, n - 1);
      assert values == [values[0]] + values[1..];
    }
  }

  lemma EvalClause(c: Clause, index: nat, args: seq<Value>, test: RowTest)
    requires ClauseError(c).None? && ReadBySql(c.op) && Holds(args, index, ClauseArgs(c))
    ensures EvalCond(CondOf(c, index), args, test) == Some(ClauseMeaning(c, test))
  {
    if IsIn(c) {
      ArgsOfRange(args, index, ClauseArgs(c));
      EmittedWords();
      OnlyInIsIn(c.op);
    } else {
      OperatorReadExactly(c.op);
      assert args[index - 1] == args[index - 1..index][0] == c.value;
      assert c == Clause(c.column, c.op, c.value);
    }
  }

  lemma OnlyInIsIn(op: string)
    requires NormalizeOp(op) == Success("IN")
    ensures Canonical(op) == "in"
  {
    EmittedWords();
    assert Canonical(op) in [">", ">=", "<", "<="] ==> op == "IN";
  }

  lemma HoldsSplit(args: seq<Value>, index: nat, clauses: seq<Clause>)
    requires clauses != [] && Holds(args, index, ArgsOf(clauses))
    ensures Holds(args, index, ClauseArgs(clauses[0]))
    ensures Holds(args, index + |ClauseArgs(clauses[0])|, ArgsOf(clauses[1..]))
  {
    hide ClauseArgs;
    HoldsConcat(args, index, ClauseArgs(clauses[0]), ArgsOf(clauses[1..]));
  }

  lemma HoldsConcat(args: seq<Value>, index: nat, a: seq<Value>, b: seq<Value>)
    requires Holds(args, index, a + b)
    ensures Holds(args, index, a) && Holds(args, index + |a|, b)
  {
    var whole := args[index - 1..index - 1 + |a + b|];
    assert args[index - 1..index - 1 + |a|] == whole[..|a|] == a;
    assert args[index - 1 + |a|..index - 1 + |a| + |b|] == whole[|a|..] == b;
  }

  lemma ValidRest(clauses: seq<Clause>)
    requires Valid(clauses) && |clauses| > 1
    ensures Valid(clauses[1..])
  {
  }

  lemma EvalCombined(left: Cond, right: Cond, args: seq<Value>, test: RowTest, x: Truth, y: Truth)
    requires EvalCond(left, args, test) == Some(x) && EvalCond(right, args, test) == Some(y)
    ensures EvalCond(Both(left, right), args, test) == Some(AndT(x, y))
    ensures EvalCond(Either(left, right), args, test) == Some(OrT(x, y))
  {
  }

  lemma ConjunctionStep(clauses: seq<Clause>, index: nat, test: RowTest)
    requires Valid(clauses)
    ensures |clauses| == 1 ==> Conjunction(clauses, index) == CondOf(clauses[0], index)
    ensures |clauses| == 1 ==> AllOf(clauses, test) == ClauseMeaning(clauses[0], test)
    ensures |clauses| > 1 ==>
              FirstError(clauses[1..]).None? && Readable(clauses[1..])
              && Conjunction(clauses, index) == Both(CondOf(clauses[0], index), Conjunction(clauses[1..], index + |ClauseArgs(clauses[0])|))
    ensures |clauses| > 1 ==> AllOf(clauses, test) == AndT(ClauseMeaning(clauses[0], test), AllOf(clauses[1..], test))
  {
    hide ClauseMeaning, ClauseError, ClauseArgs, CondOf, ReadBySql;
    if |clauses| == 1 {
      assert AllOf(clauses[1..], test) == True;
    }
  }

  lemma {:induction false} EvalConjunction(clauses: seq<Clause>, index: nat, args: seq<Value>, test: RowTest)
    requires Valid(clauses) && Holds(args, index, ArgsOf(clauses))
    ensures EvalCond(Conjunction(clauses, index), args, test) == Some(AllOf(clauses, test))
    decreases |clauses|
  {
    hide *;
    FirstErrorOfRest(clauses);
    ConjunctionStep(clauses, index, test);
    HoldsSplit(args, index, clauses);
    EvalClause(clauses[0], index, args, test);
    if |clauses| > 1 {
      ValidRest(clauses);
      var next := index + |ClauseArgs(clauses[0])|;
      EvalConjunction(clauses[1..], next, args, test);
      EvalCombined(CondOf(clauses[0], index), Conjunction(clauses[1..], next), args, test,
                   ClauseMeaning(clauses[0], test), AllOf(clauses[1..], test));
    }
  }

  lemma DisjunctionStep(clauses: seq<Clause>, index: nat, test: RowTest)
    requires Valid(clauses)
    ensures |clauses| == 1 ==> Disjunction(clauses, index) == CondOf(clauses[0], index)
    ensures |clauses| == 1 ==> AnyOf(clauses, test) == ClauseMeaning(clauses[0], test)
    ensures |clauses| > 1 ==>
              FirstError(clauses[1..]).None? && Readable(clauses[1..])
              && Disjunction(clauses, index) == Either(CondOf(clauses[0], index), Disjunction(clauses[1..], index + |ClauseArgs(clauses[0])|))
    ensures |clauses| > 1 ==> AnyOf(clauses, test) == OrT(ClauseMeaning(clauses[0], test), AnyOf(clauses[1..], test))
  {
    hide ClauseMeaning, ClauseError, ClauseArgs, CondOf, ReadBySql;
    if |clauses| == 1 {
      assert AnyOf(clauses[1..], test) == False;
    }
  }

  lemma {:induction false} EvalDisjunction(clauses: seq<Clause>, index: nat, args: seq<Value>, test: RowTest)
    requires Valid(clauses) && Holds(args, index, ArgsOf(clauses))
    ensures EvalCond(Disjunction(clauses, index), args, test) == Some(AnyOf(clauses, test))
    decreases |clauses|
  {
    hide *;
    FirstErrorOfRest(clauses);
    DisjunctionStep(clauses, index, test);
    HoldsSplit(args, index, clauses);
    EvalClause(clauses[0], index, args, test);
    if |clauses| > 1 {
      ValidRest(clauses);
      var next := index + |ClauseArgs(clauses[0])|;
      EvalDisjunction(clauses[1..], next, args, test);
      EvalCombined(CondOf(clauses[0], index), Disjunction(clauses[1..], next), args, test,
                   ClauseMeaning(clauses[0], test), AnyOf(clauses[1..], test));
    }
  }

  lemma EvalWhere(where: WhereSpec, index: nat, args: seq<Value>, test: RowTest)
    requires Valid(where.clauses) && Holds(args, index, ArgsOf(where.clauses))
    ensures EvalCond(WhereCond(where, index), args, test) == Some(Meaning(Some(where), test))
  {
    if JoinsByOr(where) {
      EvalDisjunction(where.clauses, index, args, test);
    } else {
      EvalConjunction(where.clauses, index, args, test);
    }
  }

  // ----- placeholders

  function Placeholders(ts: seq<Token>): seq<nat> {
    if ts == [] then []
    else (if ts[0].Dollar? then [ts[0].index] else []) + Placeholders(ts[1..])
  }

  lemma {:induction false} PlaceholdersOfConcat(s: seq<Token>, t: seq<Token>)
    ensures Placeholders(s + t) == Placeholders(s) + Placeholders(t)
  {
    if s == [] {
      assert s + t == t;
    } else {
      var head := if s[0].Dollar? then [s[0].index] else [];
      PlaceholdersOfConcat(s[1..], t);
      assert (s + t)[1..] == s[1..] + t;
      assert Placeholders(s) == head + Placeholders(s[1..]);
      assert Placeholders(s + t) == head + (Placeholders(s[1..]) + Placeholders(t));
    }
  }

  lemma {:induction false} PlaceholdersOfList(index: nat, n: nat)
    ensures Placeholders(PlaceholderList(true, index, n)) == Range(index, n)
    decreases n
  {
    if n == 1 {
      assert Range(index, 1) == [index] + Range(index + 1, 0);
      assert [Dollar(index)][1..] == [];
    } else if n > 1 {
      PlaceholdersOfList(index + 1, n - 1);
      PlaceholdersOfConcat([Dollar(index), Comma], PlaceholderList(true, index + 1, n - 1));
      assert [Dollar(index), Comma][1..] == [Comma] && [Comma][1..] == [];
    }
  }

  lemma PlaceholdersOfThree(a: Token, b: Token, c: Token)
    ensures Placeholders([a, b, c]) == (if a.Dollar? then [a.index] else []) + (if b.Dollar? then [b.index] else [])
                                     + (if c.Dollar? then [c.index] else [])
  {
    assert [a, b, c][1..] == [b, c] && [b, c][1..] == [c] && [c][1..] == [];
    assert Placeholders([c]) == (if c.Dollar? then [c.index] else []) + Placeholders([]);
    assert Placeholders([b, c]) == (if b.Dollar? then [b.index] else []) + Placeholders([c]);
  }

  lemma PlaceholdersOfClause(c: Clause, index: nat)
    ensures Placeholders(ClauseTokens(c, true, index)) == Range(index, |ClauseArgs(c)|)
  {
    if IsIn(c) {
      var list := PlaceholderList(true, index, |ClauseArgs(c)|);
      var head := [Ident(c.column), In, Open];
      PlaceholdersOfList(index, |ClauseArgs(c)|);
      PlaceholdersOfConcat(head + list, [Close]);
      PlaceholdersOfConcat(head, list);
      PlaceholdersOfThree(Ident(c.column), In, Open);
      assert [Close][1..] == [];
    } else {
      var ts := ClauseTokens(c, true, index);
      PlaceholdersOfThree(ts[0], ts[1], ts[2]);
      assert ts == [ts[0], ts[1], ts[2]];
      assert Range(index, 1) == [index] + Range(index + 1, 0);
    }
  }

  lemma {:induction false} RangeConcat(index: nat, m: nat, n: nat)
    ensures Range(index, m) + Range(index + m, n) == Range(index, m + n)
    decreases m
  {
    if m > 0 { RangeConcat(index + 1, m - 1, n); }
  }

  lemma NoPlaceholder(t: Token)
    requires !t.Dollar?
    ensures Placeholders([t]) == []
  {
    assert [t][1..] == [];
  }

  lemma ArgsOfStep(clauses: seq<Clause>)
    requires clauses != []
    ensures ArgsOf(clauses) == ClauseArgs(clauses[0]) + ArgsOf(clauses[1..])
    ensures |clauses| == 1 ==> ArgsOf(clauses) == ClauseArgs(clauses[0])
  {
    hide ClauseArgs;
  }

  lemma {:induction false} PlaceholdersOfJoin(clauses: seq<Clause>, index: nat, joiner: Token)
    requires clauses != [] && (joiner == And || joiner == Or)
    ensures Placeholders(Join(Pieces(clauses, true, index), joiner)) == Range(index, |ArgsOf(clauses)|)
    decreases |clauses|
  {
    hide *;
    var first := ClauseTokens(clauses[0], true, index);
    var n, next := |ClauseArgs(clauses[0])|, index + |ClauseArgs(clauses[0])|;
    PlaceholdersOfClause(clauses[0], index);
    ArgsOfStep(clauses);
    if |clauses| == 1 {
      JoinOne(clauses, true, index, joiner);
    } else {
      var tail := Join(Pieces(clauses[1..], true, next), joiner);
      PlaceholdersOfJoin(clauses[1..], next, joiner);
      RangeConcat(index, n, |ArgsOf(clauses[1..])|);
      JoinStep(clauses, true, index, joiner);
      PlaceholdersOfConcat(first, [joiner] + tail);
      PlaceholdersOfConcat([joiner], tail);
      NoPlaceholder(joiner);
    }
  }

  // ----- positional placeholders

  lemma {:induction false} NumberConcat(s: seq<Token>, t: seq<Token>, next: nat)
    ensures Number(s + t, next) == Number(s, next) + Number(t, next + Questions(s))
    decreases |s|
  {
    if s == [] {
      assert s + t == t;
    } else {
      assert (s + t)[1..] == s[1..] + t;
      NumberConcat(s[1..], t, if s[0] == Question then next + 1 else next);
    }
  }

  function Questions(s: seq<Token>): nat {
    if s == [] then 0 else (if s[0] == Question then 1 else 0) + Questions(s[1..])
  }

  lemma {:induction false} NumberList(index: nat, n: nat)
    ensures Number(PlaceholderList(false, index, n), index) == PlaceholderList(true, index, n)
    ensures Questions(PlaceholderList(false, index, n)) == n
    decreases n
  {
    if n > 1 {
      var rest := PlaceholderList(false, index + 1, n - 1);
      NumberList(index + 1, n - 1);
      assert ([Question, Comma] + rest)[1..] == [Comma] + rest;
      assert ([Comma] + rest)[1..] == rest;
    }
  }

  lemma NumberThree(a: Token, b: Token, c: Token, next: nat)
    requires a != Question && b != Question
    ensures Number([a, b, c], next) == [a, b, if c == Question then Dollar(next) else c]
    ensures Questions([a, b, c]) == if c == Question then 1 else 0
  {
    assert [a, b, c][1..] == [b, c] && [b, c][1..] == [c] && [c][1..] == [];
    assert Number([c], next) == [if c == Question then Dollar(next) else c] + Number([], if c == Question then next + 1 else next);
    assert Number([b, c], next) == [b] + Number([c], next);
    assert Questions([c]) == (if c == Question then 1 else 0) + Questions([]);
    assert Questions([b, c]) == Questions([c]);
  }

  lemma NumberClause(c: Clause, index: nat)
    ensures Number(ClauseTokens(c, false, index), index) == ClauseTokens(c, true, index)
    ensures Questions(ClauseTokens(c, false, index)) == |ClauseArgs(c)|
  {
    var ts := ClauseTokens(c, false, index);
    if IsIn(c) {
      var n := |ClauseArgs(c)|;
      var list := PlaceholderList(false, index, n);
      NumberList(index, n);
      NumberThree(Ident(c.column), In, Open, index);
      NumberConcat([Ident(c.column), In, Open] + list, [Close], index);
      NumberConcat([Ident(c.column), In, Open], list, index);
      QuestionsConcat([Ident(c.column), In, Open] + list, [Close]);
      QuestionsConcat([Ident(c.column), In, Open], list);
      assert [Close][1..] == [];
    } else {
      assert ts == [ts[0], ts[1], ts[2]];
      NumberThree(ts[0], ts[1], ts[2], index);
    }
  }

  lemma {:induction false} QuestionsConcat(s: seq<Token>, t: seq<Token>)
    ensures Questions(s + t) == Questions(s) + Questions(t)
  {
    if s == [] {
      assert s + t == t;
    } else {
      QuestionsConcat(s[1..], t);
      assert (s + t)[1..] == s[1..] + t;
    }
  }

  lemma {:induction false} NumberNumbered(ts: seq<Token>, next: nat)
    requires Question !in ts
    ensures Number(ts, next) == ts
  {
    if ts != [] { NumberNumbered(ts[1..], next); }
  }

  lemma NoQuestionsInClause(c: Clause, index: nat)
    ensures Question !in ClauseTokens(c, true, index)
  {
    NoQuestionsInList(index, |ClauseArgs(c)|);
  }

  lemma {:induction false} NoQuestions(clauses: seq<Clause>, index: nat, joiner: Token)
    requires clauses != [] && joiner != Question
    ensures Question !in Join(Pieces(clauses, true, index), joiner)
    decreases |clauses|
  {
    hide *;
    NoQuestionsInClause(clauses[0], index);
    if |clauses| == 1 {
      JoinOne(clauses, true, index, joiner);
    } else {
      JoinStep(clauses, true, index, joiner);
      NoQuestions(clauses[1..], index + |ClauseArgs(clauses[0])|, joiner);
    }
  }

  lemma {:induction false} NoQuestionsInList(index: nat, n: nat)
    ensures Question !in PlaceholderList(true, index, n)
    decreases n
  {
    if n > 1 { NoQuestionsInList(index + 1, n - 1); }
  }

  /** Binding positional placeholders in text order, from startIndex on, gives the numbered text. */
  lemma {:induction false} NumberJoin(clauses: seq<Clause>, index: nat, joiner: Token)
    requires clauses != [] && (joiner == And || joiner == Or)
    ensures Number(Join(Pieces(clauses, false, index), joiner), index) == Join(Pieces(clauses, true, index), joiner)
    decreases |clauses|
  {
    hide *;
    NumberClause(clauses[0], index);
    if |clauses| == 1 {
      JoinOne(clauses, false, index, joiner);
      JoinOne(clauses, true, index, joiner);
    } else {
      var next := index + |ClauseArgs(clauses[0])|;
      var tail := Join(Pieces(clauses[1..], false, next), joiner);
      NumberJoin(clauses[1..], next, joiner);
      JoinStep(clauses, false, index, joiner);
      JoinStep(clauses, true, index, joiner);
      NumberConcat(ClauseTokens(clauses[0], false, index), [joiner] + tail, index);
      NumberCons(joiner, tail, next);
    }
  }

  lemma NumberCons(t: Token, rest: seq<Token>, next: nat)
    requires t != Question
    ensures Number([t] + rest, next) == [t] + Number(rest, next)
  {
    assert ([t] + rest)[1..] == rest;
  }

  lemma NumberWhere(dbType: string, where: WhereSpec, index: nat)
    requires where.clauses != []
    ensures Number(Join(Pieces(where.clauses, IsPostgres(dbType), index), Joiner(where)), index)
         == Join(Pieces(where.clauses, true, index), Joiner(where))
  {
    if IsPostgres(dbType) {
      NoQuestions(where.clauses, index, Joiner(where));
      NumberNumbered(Join(Pieces(where.clauses, true, index), Joiner(where)), index);
    } else {
      NumberJoin(where.clauses, index, Joiner(where));
    }
  }

  // ----- the main results

  /** In text order the placeholders are exactly startIndex up to the returned index, which is one per argument:
      as they are written where they are numbered, and as they are bound where they are positional. */
  lemma PlaceholdersInOrder(dbType: string, where: Option<WhereSpec>, startIndex: nat)
    requires Build(dbType, where, startIndex).Success?
    ensures var b := Build(dbType, where, startIndex).value;
            b.next == startIndex + |b.args|
            && Placeholders(Number(b.tokens, startIndex)) == Range(startIndex, |b.args|)
            && (IsPostgres(dbType) ==> Placeholders(b.tokens) == Range(startIndex, |b.args|))
  {
    if where.Some? && where.value.clauses != [] {
      hide Pieces, Join, Number, Placeholders;
      NumberWhere(dbType, where.value, startIndex);
      PlaceholdersOfJoin(where.value.clauses, startIndex, Joiner(where.value));
    }
  }

  /** In the assembled condition the k-th placeholder binds the k-th argument, the time bound being the first. */
  lemma AssembledPlaceholdersInOrder(dbType: string, timestampColumn: string, since: Value, where: Option<WhereSpec>)
    requires Assembled(dbType, timestampColumn, since, where).Success?
    ensures var q := Assembled(dbType, timestampColumn, since, where).value;
            Placeholders(Number(q.tokens, 1)) == Range(1, |q.args|)
            && q.args == [since] + Build(dbType, where, 2).value.args
  {
    if where.None? || where.value.clauses == [] {
      var time := [Ident(timestampColumn), Op(">="), Placeholder(IsPostgres(dbType), 1)];
      assert Assembled(dbType, timestampColumn, since, where).value.tokens == time;
      NumberTime(dbType, timestampColumn);
      PlaceholdersOfTime(timestampColumn);
    } else {
      var clauses, joiner := where.value.clauses, Joiner(where.value);
      var text := Join(Pieces(clauses, true, 2), joiner);
      NumberAssembled(dbType, timestampColumn, since, where.value);
      hide Pieces, Join, Number, Placeholders, Range;
      PlaceholdersOfJoin(clauses, 2, joiner);
      PlaceholdersOfTime(timestampColumn);
      PlaceholdersInParentheses(text);
      PlaceholdersOfConcat([Ident(timestampColumn), Op(">="), Dollar(1)], [And, Open] + (text + [Close]));
      RangeConcat(1, 1, |ArgsOf(clauses)|);
    }
  }

  lemma PlaceholdersOfTime(column: string)
    ensures Placeholders([Ident(column), Op(">="), Dollar(1)]) == [1] == Range(1, 1)
  {
    PlaceholdersOfThree(Ident(column), Op(">="), Dollar(1));
    assert Range(1, 1) == [1] + Range(2, 0);
  }

  lemma PlaceholdersInParentheses(text: seq<Token>)
    ensures Placeholders([And, Open] + (text + [Close])) == Placeholders(text)
  {
    var ts := [And, Open] + (text + [Close]);
    assert ts[1..] == [Open] + (text + [Close]);
    assert ts[1..][1..] == text + [Close];
    PlaceholdersOfConcat(text, [Close]);
    NoPlaceholder(Close);
  }

  /** The where text on its own, with its arguments from the first placeholder on, means the specification, if
      SQL reads all of its operators; if it does not, the text is no condition. */
  lemma WherePreservesMeaning(dbType: string, where: WhereSpec, test: RowTest)
    requires where.clauses != [] && Build(dbType, Some(where), 1).Success?
    ensures var b := Build(dbType, Some(where), 1).value;
            EvalSql(b.tokens, b.args, test) == if Readable(where.clauses) then Some(Meaning(Some(where), test)) else None
  {
    var tokens := Join(Pieces(where.clauses, true, 1), Joiner(where));
    NumberWhere(dbType, where, 1);
    assert tokens + [] == tokens;
    hide ParseOr, Pieces, Join, Number, Readable, Meaning, WhereCond, EvalCond, ArgsOf;
    if Readable(where.clauses) {
      ParseWhere(where, 1, []);
      EvalWhere(where, 1, ArgsOf(where.clauses), test);
    } else {
      ParseUnreadable(where.clauses, 1, Joiner(where), []);
    }
  }

  /** The assembled condition is the time bound AND the specification, whichever way its clauses are joined and
      whichever placeholders the database uses, under the same condition. */
  lemma AssembledPreservesMeaning(dbType: string, timestampColumn: string, since: Value, where: Option<WhereSpec>, test: RowTest)
    requires Assembled(dbType, timestampColumn, since, where).Success?
    ensures var q := Assembled(dbType, timestampColumn, since, where).value;
            EvalSql(q.tokens, q.args, test)
            == if where.None? || Readable(where.value.clauses)
               then Some(AndT(test(timestampColumn, Ge, since), Meaning(where, test))) else None
  {
    var q := Assembled(dbType, timestampColumn, since, where).value;
    if where.None? || where.value.clauses == [] {
      hide ReadBySql, ParseAnd, ComparisonOf;
      NumberTime(dbType, timestampColumn);
      ParseTime(timestampColumn, []);
      var bound := [Ident(timestampColumn), Op(">="), Dollar(1)];
      assert bound + [] == bound;
      assert q.tokens == [Ident(timestampColumn), Op(">="), Placeholder(IsPostgres(dbType), 1)];
      assert q.args == [since];
      ParseAlone(bound, Compare(timestampColumn, Ge, 1), []);
    } else if Readable(where.value.clauses) {
      AssembledWhere(dbType, timestampColumn, since, where.value, test);
    } else {
      AssembledUnreadable(dbType, timestampColumn, since, where.value, test);
    }
  }

  lemma AssembledUnreadable(dbType: string, timestampColumn: string, since: Value, spec: WhereSpec, test: RowTest)
    requires spec.clauses != [] && Assembled(dbType, timestampColumn, since, Some(spec)).Success?
    requires !Readable(spec.clauses)
    ensures var q := Assembled(dbType, timestampColumn, since, Some(spec)).value; EvalSql(q.tokens, q.args, test) == None
  {
    var tokens := Join(Pieces(spec.clauses, true, 2), Joiner(spec));
    NumberAssembled(dbType, timestampColumn, since, spec);
    assert FirstError(spec.clauses).None?;
    hide Pieces, Join, Number, ParseOr, Readable;
    ParseUnreadable(spec.clauses, 2, Joiner(spec), [Close]);
    ParseAroundNothing(timestampColumn, tokens);
  }

  /** In parentheses after the time bound, what does not parse does not parse either. */
  lemma ParseAroundNothing(column: string, tokens: seq<Token>)
    requires ParseOr(tokens + [Close]) == NoParse
    ensures ParseOr([Ident(column), Op(">="), Dollar(1)] + ([And, Open] + (tokens + [Close]))) == NoParse
  {
    hide *;
    var inner := [Open] + (tokens + [Close]);
    var ts := [Ident(column), Op(">="), Dollar(1)] + ([And] + inner);
    ParseParenthesesFails(tokens);
    ParseNoPrimary(inner);
    ParseTime(column, [And] + inner);
    ParseAndFails(ts, Compare(column, Ge, 1), inner);
    assert ts == [Ident(column), Op(">="), Dollar(1)] + ([And, Open] + (tokens + [Close]));
  }

  lemma ParseParenthesesFails(tokens: seq<Token>)
    requires ParseOr(tokens + [Close]) == NoParse
    ensures ParsePrimary([Open] + (tokens + [Close])) == NoParse
  {
    assert ([Open] + (tokens + [Close]))[1..] == tokens + [Close];
  }

  lemma AssembledWhere(dbType: string, timestampColumn: string, since: Value, spec: WhereSpec, test: RowTest)
    requires spec.clauses != [] && Assembled(dbType, timestampColumn, since, Some(spec)).Success?
    requires Readable(spec.clauses)
    ensures var q := Assembled(dbType, timestampColumn, since, Some(spec)).value;
            EvalSql(q.tokens, q.args, test) == Some(AndT(test(timestampColumn, Ge, since), Meaning(Some(spec), test)))
  {
    var q := Assembled(dbType, timestampColumn, since, Some(spec)).value;
    var tokens := Join(Pieces(spec.clauses, true, 2), Joiner(spec));
    NumberAssembled(dbType, timestampColumn, since, spec);
    hide IsPostgres, Pieces, Join, Number, ParseOr, WhereCond, Meaning, Readable;
    ParseAssembled(timestampColumn, spec, tokens);
    assert q.args == [since] + ArgsOf(spec.clauses);
    assert q.args[1..] == ArgsOf(spec.clauses);
    assert Holds(q.args, 2, ArgsOf(spec.clauses));
    EvalWhere(spec, 2, q.args, test);
    EvalBoth(timestampColumn, since, WhereCond(spec, 2), q.args, test, Meaning(Some(spec), test));
  }

  lemma EvalBoth(column: string, since: Value, cond: Cond, args: seq<Value>, test: RowTest, meaning: Truth)
    requires args != [] && args[0] == since && EvalCond(cond, args, test) == Some(meaning)
    ensures EvalCond(Both(Compare(column, Ge, 1), cond), args, test) == Some(AndT(test(column, Ge, since), meaning))
  {
    assert EvalCond(Compare(column, Ge, 1), args, test) == Some(test(column, Ge, since));
  }

  lemma NumberAssembled(dbType: string, timestampColumn: string, since: Value, spec: WhereSpec)
    requires spec.clauses != [] && Assembled(dbType, timestampColumn, since, Some(spec)).Success?
    ensures Number(Assembled(dbType, timestampColumn, since, Some(spec)).value.tokens, 1)
         == [Ident(timestampColumn), Op(">="), Dollar(1)]
          + ([And, Open] + (Join(Pieces(spec.clauses, true, 2), Joiner(spec)) + [Close]))
  {
    var q := Assembled(dbType, timestampColumn, since, Some(spec)).value;
    var time := [Ident(timestampColumn), Op(">="), Placeholder(IsPostgres(dbType), 1)];
    var text := Join(Pieces(spec.clauses, IsPostgres(dbType), 2), Joiner(spec));
    WhereTextNotEmpty(spec, IsPostgres(dbType), 2);
    assert q.tokens == time + ([And, Open] + (text + [Close]));
    hide Pieces, Join, Number;
    NumberTime(dbType, timestampColumn);
    NumberConcat(time, [And, Open] + (text + [Close]), 1);
    if IsPostgres(dbType) {
      NumberInParentheses(text, 1);
      NoQuestions(spec.clauses, 2, Joiner(spec));
      NumberNumbered(text, 1);
    } else {
      NumberInParentheses(text, 2);
      NumberJoin(spec.clauses, 2, Joiner(spec));
    }
  }

  lemma NumberTime(dbType: string, column: string)
    ensures Number([Ident(column), Op(">="), Placeholder(IsPostgres(dbType), 1)], 1) == [Ident(column), Op(">="), Dollar(1)]
    ensures Questions([Ident(column), Op(">="), Placeholder(IsPostgres(dbType), 1)]) == if IsPostgres(dbType) then 0 else 1
  {
    NumberThree(Ident(column), Op(">="), Placeholder(IsPostgres(dbType), 1), 1);
  }

  lemma NumberInParentheses(text: seq<Token>, next: nat)
    ensures Number([And, Open] + (text + [Close]), next) == [And, Open] + (Number(text, next) + [Close])
  {
    var ts := [And, Open] + (text + [Close]);
    assert ts[1..] == [Open] + (text + [Close]);
    assert ts[1..][1..] == text + [Close];
    NumberConcat(text, [Close], next);
    assert [Close][1..] == [];
  }

  lemma WhereTextNotEmpty(where: WhereSpec, postgres: bool, index: nat)
    requires where.clauses != []
    ensures Join(Pieces(where.clauses, postgres, index), Joiner(where)) != []
  {
  }

  lemma ParseTime(column: string, rest: seq<Token>)
    ensures ParsePrimary([Ident(column), Op(">="), Dollar(1)] + rest) == Parsed(Compare(column, Ge, 1), rest)
  {
    EmittedWords();
    var ts := [Ident(column), Op(">="), Dollar(1)] + rest;
    assert ts[3..] == rest;
  }

  lemma ParseParentheses(tokens: seq<Token>, cond: Cond)
    requires ParseOr(tokens + [Close]) == Parsed(cond, [Close])
    ensures ParsePrimary([Open] + (tokens + [Close])) == Parsed(cond, [])
  {
    assert ([Open] + (tokens + [Close]))[1..] == tokens + [Close];
  }

  lemma NoJoinerAhead()
    ensures !StartsWith([Close], And) && !StartsWith([Close], Or) && !StartsWith([], And) && !StartsWith([], Or)
  {
  }

  lemma ParseAssembled(timestampColumn: string, where: WhereSpec, tokens: seq<Token>)
    requires Valid(where.clauses) && tokens == Join(Pieces(where.clauses, true, 2), Joiner(where))
    ensures ParseOr([Ident(timestampColumn), Op(">="), Dollar(1)] + ([And, Open] + (tokens + [Close])))
         == Parsed(Both(Compare(timestampColumn, Ge, 1), WhereCond(where, 2)), [])
  {
    hide *;
    var inner := [Open] + (tokens + [Close]);
    var ts := [Ident(timestampColumn), Op(">="), Dollar(1)] + ([And] + inner);
    NoJoinerAhead();
    ParseWhere(where, 2, [Close]);
    ParseParentheses(tokens, WhereCond(where, 2));
    ParseAlone(inner, WhereCond(where, 2), []);
    ParseTime(timestampColumn, [And] + inner);
    ParseAndStep(ts, Compare(timestampColumn, Ge, 1), inner, WhereCond(where, 2), []);
    ParseOrOfAnd(ts, Both(Compare(timestampColumn, Ge, 1), WhereCond(where, 2)));
    assert ts == [Ident(timestampColumn), Op(">="), Dollar(1)] + ([And, Open] + (tokens + [Close]));
  }

  /** A where specification is refused exactly when one of its clauses has an error, and with the error of the
      first such clause. */
  lemma RefusedForFirstError(dbType: string, where: WhereSpec, startIndex: nat, k: nat)
    requires k < |where.clauses|
    requires ClauseError(where.clauses[k]).Some? && forall i :: 0 <= i < k ==> ClauseError(where.clauses[i]).None?
    ensures Build(dbType, Some(where), startIndex) == Failure(ClauseError(where.clauses[k]).value)
  {
    FirstErrorIs(where.clauses, k);
  }

  lemma {:induction false} FirstErrorIs(clauses: seq<Clause>, k: nat)
    requires k < |clauses| && ClauseError(clauses[k]).Some? && forall i :: 0 <= i < k ==> ClauseError(clauses[i]).None?
    ensures FirstError(clauses) == ClauseError(clauses[k])
  {
    if k > 0 { FirstErrorIs(clauses[1..], k - 1); }
  }

  lemma {:induction false} NoErrorIffAllFine(clauses: seq<Clause>)
    ensures FirstError(clauses).None? <==> forall i :: 0 <= i < |clauses| ==> ClauseError(clauses[i]).None?
  {
    if clauses != [] { NoErrorIffAllFine(clauses[1..]); }
  }

  // ----- which joiner, which operators, which names, which placeholders

  lemma OrInAnyCase(kind: string)
    ensures ToLower(kind) == "or" <==> kind in ["or", "Or", "oR", "OR"]
  {
    if ToLower(kind) == "or" {
      assert ToLower(kind)[0] == 'o' && ToLower(kind)[1] == 'r';
      assert kind == [kind[0], kind[1]];
    }
  }

  /** The kind or, in any case of its letters, asks for any of the clauses, and every other kind for all. */
  lemma JoinedByKind(dbType: string, where: WhereSpec, test: RowTest)
    requires where.clauses != [] && Build(dbType, Some(where), 1).Success? && Readable(where.clauses)
    ensures var b := Build(dbType, Some(where), 1).value;
            EvalSql(b.tokens, b.args, test)
            == Some(if where.kind in ["or", "Or", "oR", "OR"] then AnyOf(where.clauses, test) else AllOf(where.clauses, test))
  {
    hide Build, EvalSql, AnyOf, AllOf, ToLower, Readable;
    WherePreservesMeaning(dbType, where, test);
    OrInAnyCase(where.kind);
  }

  lemma AssembledByKind(dbType: string, timestampColumn: string, since: Value, where: WhereSpec, test: RowTest)
    requires where.clauses != [] && Assembled(dbType, timestampColumn, since, Some(where)).Success? && Readable(where.clauses)
    ensures var q := Assembled(dbType, timestampColumn, since, Some(where)).value;
            EvalSql(q.tokens, q.args, test)
            == Some(AndT(test(timestampColumn, Ge, since),
                         if where.kind in ["or", "Or", "oR", "OR"] then AnyOf(where.clauses, test) else AllOf(where.clauses, test)))
  {
    hide Assembled, EvalSql, AnyOf, AllOf, ToLower, Readable, AndT;
    AssembledPreservesMeaning(dbType, timestampColumn, since, Some(where), test);
    OrInAnyCase(where.kind);
  }

  /** All of the clauses, in three values: true when all are, false when one is. */
  lemma {:induction false} AllOfExactly(clauses: seq<Clause>, test: RowTest)
    ensures AllOf(clauses, test) == True <==> forall i :: 0 <= i < |clauses| ==> ClauseMeaning(clauses[i], test) == True
    ensures AllOf(clauses, test) == False <==> exists i :: 0 <= i < |clauses| && ClauseMeaning(clauses[i], test) == False
  {
    hide ClauseMeaning;
    if clauses != [] {
      var rest := clauses[1..];
      AllOfExactly(rest, test);
      assert forall i :: 0 <= i < |clauses| ==> clauses[i] == if i == 0 then clauses[0] else rest[i - 1];
      assert forall i :: 0 <= i < |rest| ==> rest[i] == clauses[i + 1];
    }
  }

  /** Any of the clauses: true when one is, false when all are. */
  lemma {:induction false} AnyOfExactly(clauses: seq<Clause>, test: RowTest)
    ensures AnyOf(clauses, test) == True <==> exists i :: 0 <= i < |clauses| && ClauseMeaning(clauses[i], test) == True
    ensures AnyOf(clauses, test) == False <==> forall i :: 0 <= i < |clauses| ==> ClauseMeaning(clauses[i], test) == False
  {
    hide ClauseMeaning;
    if clauses != [] {
      var rest := clauses[1..];
      AnyOfExactly(rest, test);
      assert forall i :: 0 <= i < |clauses| ==> clauses[i] == if i == 0 then clauses[0] else rest[i - 1];
      assert forall i :: 0 <= i < |rest| ==> rest[i] == clauses[i + 1];
    }
  }

  /** IN: true when one of the items equals, false when none does. */
  lemma {:induction false} AnyEqualExactly(column: string, values: seq<Value>, test: RowTest)
    ensures AnyEqual(column, values, test) == True <==> exists i :: 0 <= i < |values| && test(column, Eq, values[i]) == True
    ensures AnyEqual(column, values, test) == False <==> forall i :: 0 <= i < |values| ==> test(column, Eq, values[i]) == False
  {
    if values != [] {
      var rest := values[1..];
      AnyEqualExactly(column, rest, test);
      assert forall i :: 0 <= i < |values| ==> values[i] == if i == 0 then values[0] else rest[i - 1];
      assert forall i :: 0 <= i < |rest| ==> rest[i] == values[i + 1];
    }
  }

  /** The letters that stand for a small one. */
  function Spellings(c: char): string {
    match c
    case 'l' => "lL"
    case 'i' => "iI\U{130}"
    case 'k' => "kK\U{212A}"
    case 'e' => "eE"
    case 'n' => "nN"
    case _ => [c]
  }

  predicate Spells(text: string, word: string) {
    |text| == |word| && forall i :: 0 <= i < |word| ==> text[i] in Spellings(word[i])
  }

  function Operators(): seq<string> {
    ["=", "==", "!=", "<>", ">", ">=", "<", "<=", "like", "in"]
  }

  predicate AllSpace(s: string) {
    forall i :: 0 <= i < |s| ==> IsSpace(s[i])
  }

  /** The comparison that an operator other than in asks for. */
  function Asked(word: string): Comparison {
    match word
    case "=" => Eq
    case "==" => Eq
    case "!=" => Ne
    case "<>" => Ne
    case ">" => Gt
    case ">=" => Ge
    case "<" => Lt
    case "<=" => Le
    case _ => Like
  }

  lemma SpelledIsLower(text: string, word: string)
    requires word in Operators()
    ensures Spells(text, word) <==> ToLower(text) == word
  {
    WordLetters(word);
    LowerByLetter(text);
    hide ToLower, Spellings, Operators;
    if |text| == |word| {
      forall i | 0 <= i < |word| ensures text[i] in Spellings(word[i]) <==> ToLower(text)[i] == word[i] {
        SpellingOfLetter(text[i], word[i]);
      }
      assert ToLower(text) == word <==> forall i :: 0 <= i < |word| ==> ToLower(text)[i] == word[i];
    }
  }

  lemma WordLetters(word: string)
    requires word in Operators()
    ensures forall i :: 0 <= i < |word| ==> word[i] in "=!<>likein"
  {
  }

  lemma SpellingOfLetter(c: char, w: char)
    requires w in "=!<>likein"
    ensures c in Spellings(w) <==> ToLower([c])[0] == w
  {
  }

  lemma LowerByLetter(text: string)
    ensures |ToLower(text)| == |text|
    ensures forall i :: 0 <= i < |text| ==> ToLower(text)[i] == ToLower([text[i]])[0] && |ToLower([text[i]])| == 1
  {
  }

  lemma {:induction false} TrimsTo(pre: string, core: string, post: string)
    requires AllSpace(pre) && AllSpace(post) && core != "" && !IsSpace(core[0]) && !IsSpace(core[|core| - 1])
    ensures Trim(pre + core + post, IsSpace) == core
    decreases |pre| + |post|
  {
    var s := pre + core + post;
    if pre != "" {
      assert s[1..] == pre[1..] + core + post;
      TrimsTo(pre[1..], core, post);
    } else if post != "" {
      assert s == core + post;
      var rest := core + post[..|post| - 1];
      assert s[..|s| - 1] == rest && pre + core + post[..|post| - 1] == rest;
      TrimsTo(pre, core, post[..|post| - 1]);
      assert TrimLeft(rest, IsSpace) == rest && TrimLeft(s, IsSpace) == s;
    } else {
      assert s == core;
    }
  }

  /** What is trimmed off is space at the ends. */
  lemma {:induction false} TrimSplits(s: string) returns (pre: string, post: string)
    ensures s == pre + Trim(s, IsSpace) + post && AllSpace(pre) && AllSpace(post)
    decreases |s|
  {
    pre, post := "", "";
    if s != "" && IsSpace(s[0]) {
      pre, post := TrimSplits(s[1..]);
      pre := [s[0]] + pre;
      assert s == [s[0]] + s[1..];
    } else if s != "" && IsSpace(s[|s| - 1]) {
      var rest := s[..|s| - 1];
      assert TrimLeft(s, IsSpace) == s && TrimLeft(rest, IsSpace) == rest;
      pre, post := TrimSplits(rest);
      post := post + [s[|s| - 1]];
      assert s == rest + [s[|s| - 1]];
    }
  }

  /** The operators that are let through are the ten of the list, in any case of their letters and with any
      space around them, and each means what it says. */
  lemma OperatorMeans(pre: string, core: string, post: string, word: string)
    requires AllSpace(pre) && AllSpace(post) && word in Operators() && Spells(core, word)
    ensures NormalizeOp(pre + core + post).Success?
    ensures NormalizeOp(pre + core + post) == Success("IN") <==> word == "in"
    ensures forall column, v, test: RowTest :: word != "in" ==>
              ClauseMeaning(Clause(column, pre + core + post, v), test) == test(column, Asked(word), v)
    ensures forall column, items, test: RowTest :: word == "in" ==>
              ClauseMeaning(Clause(column, pre + core + post, List(items)), test) == AnyEqual(column, items, test)
  {
    SpelledCanonical(pre, core, post, word);
    WordMeans(pre + core + post, word);
    hide *;
  }

  lemma SpelledCanonical(pre: string, core: string, post: string, word: string)
    requires AllSpace(pre) && AllSpace(post) && word in Operators() && Spells(core, word)
    ensures Canonical(pre + core + post) == word
  {
    assert core[0] in Spellings(word[0]) && core[|core| - 1] in Spellings(word[|word| - 1]);
    TrimsTo(pre, core, post);
    SpelledIsLower(core, word);
    hide Trim, ToLower;
  }

  lemma WordMeans(op: string, word: string)
    requires Canonical(op) == word && word in Operators()
    ensures NormalizeOp(op).Success?
    ensures NormalizeOp(op) == Success("IN") <==> word == "in"
    ensures forall column, v, test: RowTest :: word != "in" ==>
              ClauseMeaning(Clause(column, op, v), test) == test(column, Asked(word), v)
    ensures forall column, items, test: RowTest :: word == "in" ==>
              ClauseMeaning(Clause(column, op, List(items)), test) == AnyEqual(column, items, test)
  {
    if NormalizeOp(op) == Success("IN") {
      OnlyInIsIn(op);
    }
    hide Canonical;
  }

  lemma OperatorsLetThrough(op: string) returns (pre: string, core: string, post: string)
    requires NormalizeOp(op).Success?
    ensures op == pre + core + post && AllSpace(pre) && AllSpace(post)
    ensures exists word :: word in Operators() && Spells(core, word)
  {
    pre, post := TrimSplits(op);
    core := Trim(op, IsSpace);
    SpelledIsLower(core, ToLower(core));
    assert ToLower(core) in Operators() && Spells(core, ToLower(core));
  }

  const SMALL := "abcdefghijklmnopqrstuvwxyz"
  const CAPITAL := "ABCDEFGHIJKLMNOPQRSTUVWXYZ"
  const LETTERS := SMALL + CAPITAL + "_"
  const DIGITS := "0123456789"

  predicate SafeName(name: string) {
    name != "" && name[0] in LETTERS && forall i :: 0 <= i < |name| ==> name[i] in LETTERS || name[i] in DIGITS
  }

  /** The names that are let through: a letter or underscore, and then letters, underscores and digits. */
  lemma SafeNamesExactly(name: string)
    ensures IsSafeIdentifier(name) <==> SafeName(name)
  {
    forall c: char ensures (c in LETTERS <==> IsLetter(c)) && (c in DIGITS <==> '0' <= c <= '9') {
      LettersAreLetters(c);
    }
    hide IsLetter;
  }

  lemma LettersAreLetters(c: char)
    ensures c in LETTERS <==> IsLetter(c)
    ensures c in DIGITS <==> '0' <= c <= '9'
  {
    SmallAreSmall(c);
    CapitalsAreCapital(c);
    DigitsAreDigits(c);
    hide SMALL, CAPITAL, DIGITS;
  }

  lemma SmallAreSmall(c: char)
    ensures c in SMALL <==> 'a' <= c <= 'z'
  {
    if 'a' <= c <= 'z' {
      assert SMALL[c as int - 'a' as int] == c;
    }
  }

  lemma CapitalsAreCapital(c: char)
    ensures c in CAPITAL <==> 'A' <= c <= 'Z'
  {
    if 'A' <= c <= 'Z' {
      assert CAPITAL[c as int - 'A' as int] == c;
    }
  }

  lemma DigitsAreDigits(c: char)
    ensures c in DIGITS <==> '0' <= c <= '9'
  {
    if '0' <= c <= '9' {
      assert DIGITS[c as int - '0' as int] == c;
    }
  }

  /** Why a clause is refused: its name, then its operator, then its items. */
  lemma RefusedExactly(c: Clause)
    ensures ClauseError(c) == Some(UnsafeIdentifier) <==> !SafeName(c.column)
    ensures ClauseError(c) == Some(UnsupportedOperator) <==> SafeName(c.column) && !IsOperator(c.op)
    ensures ClauseError(c) == Some(InvalidInValues) <==>
            SafeName(c.column) && SpelledWithSpace(c.op, "in") && (!c.value.List? || c.value.items == [])
  {
    SafeNamesExactly(c.column);
    OperatorOrNot(c.op);
    hide IsSafeIdentifier, SafeName, NormalizeOp, IsOperator, SpelledWithSpace;
    UnsupportedIsTheOnlyError(c.op);
  }

  lemma UnsupportedIsTheOnlyError(op: string)
    ensures NormalizeOp(op).Failure? ==> NormalizeOp(op).error == UnsupportedOperator
  {
  }

  predicate SpelledWithSpace(op: string, word: string) {
    exists i, j :: 0 <= i <= j <= |op| && AllSpace(op[..i]) && Spells(op[i..j], word) && AllSpace(op[j..])
  }

  predicate IsOperator(op: string) {
    exists word :: word in Operators() && SpelledWithSpace(op, word)
  }

  lemma OperatorOrNot(op: string)
    ensures NormalizeOp(op).Success? <==> IsOperator(op)
    ensures NormalizeOp(op) == Success("IN") <==> SpelledWithSpace(op, "in")
  {
    if NormalizeOp(op).Success? {
      var pre, core, post := OperatorsLetThrough(op);
      var word :| word in Operators() && Spells(core, word);
      var i, j := |pre|, |pre| + |core|;
      assert op[..i] == pre && op[i..j] == core && op[j..] == post;
      assert SpelledWithSpace(op, word);
      OperatorMeans(pre, core, post, word);
    }
    forall word | word in Operators() && SpelledWithSpace(op, word)
      ensures NormalizeOp(op).Success? && (NormalizeOp(op) == Success("IN") <==> word == "in")
    {
      var i, j :| 0 <= i <= j <= |op| && AllSpace(op[..i]) && Spells(op[i..j], word) && AllSpace(op[j..]);
      assert op == op[..i] + op[i..j] + op[j..];
      OperatorMeans(op[..i], op[i..j], op[j..], word);
    }
  }

  /** Placeholders are numbered exactly for a database type that begins with post, in any case of its letters. */
  lemma NumberedExactlyForPostgres(dbType: string, index: nat)
    ensures Placeholder(IsPostgres(dbType), index)
         == if |dbType| >= 4 && dbType[0] in "pP" && dbType[1] in "oO" && dbType[2] in "sS" && dbType[3] in "tT"
            then Dollar(index) else Question
  {
    LowerByLetter(dbType);
    forall c: char ensures (ToLower([c])[0] == 'p' <==> c in "pP") && (ToLower([c])[0] == 'o' <==> c in "oO")
      && (ToLower([c])[0] == 's' <==> c in "sS") && (ToLower([c])[0] == 't' <==> c in "tT") {
    }
    var low := ToLower(dbType);
    assert "post" <= low <==> |low| >= 4 && low[0] == 'p' && low[1] == 'o' && low[2] == 's' && low[3] == 't';
  }
}
