/**
 * A printer for declarations (`def` and `extern` prototypes) and the theorem
 * that the parser reads every printed declaration back: the head becomes the
 * function's name (`binary` and `unary` heads become `binary`/`unary` plus the
 * operator), a binary head's precedence is its number or 0, the parameter
 * list is the identifiers between the parentheses, and a binary head writes
 * its precedence into the operator table before the body is parsed.
 */
module ParserDecls {
  import opened Options
  import opened Lexer
  import opened Parser
  import Ast
  import ParserRoundTrip

  /** The source form of a prototype head: a name, `binary op [prec]` or `unary op`. */
  datatype HeadText =
    | Named(name: string)
    | BinaryOp(op: char, prec: Option<Num>)
    | UnaryOp(op: char)

  function PrintHead(h: HeadText): (ts: seq<Token>)
    ensures 1 <= |ts| <= 3
  {
    match h
      case Named(name) => [Ident(name)]
      case BinaryOp(op, None) => [Binary, Op(op)]
      case BinaryOp(op, Some(n)) => [Binary, Op(op), Number(n)]
      case UnaryOp(op) => [Unary, Op(op)]
  }

  /** The tokens of `head(args)`. */
  function PrintProto(h: HeadText, args: seq<string>): (ts: seq<Token>)
  {
    PrintHead(h) + SignatureTokens(args)
  }

  /** The name, operator flag and precedence a head declares, reading a precedence number with `asUsize`. */
  function HeadOf(h: HeadText, asUsize: Num -> nat): (hd: Head)
  {
    match h
      case Named(name) => Head(name, false, 0)
      case BinaryOp(op, None) => Head(Ast.BinaryName(op), true, 0)
      case BinaryOp(op, Some(n)) => Head(Ast.BinaryName(op), true, asUsize(n))
      case UnaryOp(op) => Head(Ast.UnaryName(op), true, 0)
  }

  /** The prototype a head and a parameter list declare. */
  function ProtoOf(h: HeadText, args: seq<string>, asUsize: Num -> nat): (p: Ast.Prototype)
  {
    var hd := HeadOf(h, asUsize);
    Ast.Prototype(hd.name, args, hd.isOp, hd.prec)
  }

  /** The operator table once the head has been read: a binary head records its operator's precedence. */
  function TableAfter(h: HeadText, table: Table, asUsize: Num -> nat): (t: Table)
  {
    match h
      case BinaryOp(op, None) => table[op := 0]
      case BinaryOp(op, Some(n)) => table[op := AsI32(asUsize(n))]
      case _ => table
  }

  /** What follows the first parts of a sequence split in three from `pos`. */
  lemma DropPrefix<T>(ts: seq<T>, pos: nat, a: seq<T>, b: seq<T>, c: seq<T>)
    requires pos <= |ts| && ts[pos..] == a + b + c
    ensures pos + |a| + |b| <= |ts| && ts[pos..pos + |a|] == a && ts[pos + |a|..] == b + c && ts[pos + |a| + |b|..] == c
  {
    assert ts[pos..pos + |a|] == ts[pos..][..|a|];
    assert ts[pos + |a|..] == ts[pos..][|a|..];
    assert ts[pos + |a| + |b|..] == ts[pos..][|a| + |b|..];
  }

  /** Where the first name and separator of a printed parameter list sit. */
  lemma ParamsSlices(ts: seq<Token>, pos: nat, names: seq<string>, rest: seq<Token>)
    requires names != [] && pos <= |ts| && ts[pos..] == ParamList(names) + rest
    ensures pos + 1 < |ts| && ts[pos] == Ident(names[0])
    ensures |names| == 1 ==> ts[pos + 1] == RParen
    ensures |names| > 1 ==> ts[pos + 1] == Comma && pos + 2 <= |ts| && ts[pos + 2..] == ParamList(names[1..]) + rest
  {
    assert ts[pos] == ts[pos..][0];
    assert ts[pos + 1] == ts[pos..][1];
    if |names| > 1 {
      DropPrefix(ts, pos, [Ident(names[0]), Comma], ParamList(names[1..]), rest);
    }
  }

  /** One step of the parameter loop: a name, then `)` or `,` and the rest of the list. */
  lemma ParamsStep(ts: seq<Token>, pos: nat, names: seq<string>)
    requires names != [] && pos + 1 < |ts| && ts[pos] == Ident(names[0])
    requires |names| == 1 ==> ts[pos + 1] == RParen
    requires |names| > 1 ==> ts[pos + 1] == Comma && pos + 2 <= |ts| &&
                             ParseParams(ts, pos + 2) == Parsed(names[1..], pos + 2 * |names|)
    ensures ParseParams(ts, pos) == Parsed(names, pos + 2 * |names|)
  {
    if |names| == 1 {
      assert [names[0]] == names;
    } else {
      assert [names[0]] + names[1..] == names;
    }
  }

  /** A printed parameter list parses back to its names, ending just after the `)`. */
  lemma {:induction false} ParamsRoundTrip(ts: seq<Token>, pos: nat, names: seq<string>, rest: seq<Token>)
    requires names != [] && pos <= |ts| && ts[pos..] == ParamList(names) + rest
    ensures ParseParams(ts, pos) == Parsed(names, pos + 2 * |names|)
    decreases |names|
  {
    ParamsSlices(ts, pos, names, rest);
    if |names| > 1 {
      ParamsRoundTrip(ts, pos + 2, names[1..], rest);
    }
    ParamsStep(ts, pos, names);
  }

  /** Where the parentheses and the parameter list of a printed signature sit. */
  lemma SignatureSlices(ts: seq<Token>, pos: nat, args: seq<string>, rest: seq<Token>)
    requires pos <= |ts| && ts[pos..] == SignatureTokens(args) + rest
    ensures pos + 1 < |ts| && ts[pos] == LParen
    ensures args == [] ==> ts[pos + 1] == RParen
    ensures args != [] ==> ts[pos + 1] == Ident(args[0]) && ts[pos + 1..] == ParamList(args) + rest
  {
    assert ts[pos] == ts[pos..][0];
    assert ts[pos + 1] == ts[pos..][1];
    if args != [] {
      DropPrefix(ts, pos, [LParen], ParamList(args), rest);
    }
  }

  /** `parse_prototype`'s signature step: `()` or `(` then a parameter list. */
  lemma SignatureStep(ts: seq<Token>, pos: nat, head: Head, args: seq<string>)
    requires pos + 1 < |ts| && ts[pos] == LParen
    requires args == [] ==> ts[pos + 1] == RParen
    requires args != [] ==> ts[pos + 1] == Ident(args[0]) && ParseParams(ts, pos + 1) == Parsed(args, pos + 1 + 2 * |args|)
    ensures ParseSignature(ts, pos, head) ==
              Parsed(Ast.Prototype(head.name, args, head.isOp, head.prec), pos + |SignatureTokens(args)|)
  {
  }

  /** A printed signature parses back to the parameter names, whatever head came before it. */
  lemma SignatureRoundTrip(ts: seq<Token>, pos: nat, head: Head, args: seq<string>, rest: seq<Token>)
    requires pos <= |ts| && ts[pos..] == SignatureTokens(args) + rest
    ensures ParseSignature(ts, pos, head) ==
              Parsed(Ast.Prototype(head.name, args, head.isOp, head.prec), pos + |SignatureTokens(args)|)
  {
    SignatureSlices(ts, pos, args, rest);
    if args != [] {
      ParamsRoundTrip(ts, pos + 1, args, rest);
    }
    SignatureStep(ts, pos, head, args);
  }

  /** `parse_prototype`'s head step on a plain name. */
  lemma NamedHeadStep(ts: seq<Token>, table: Table, pos: nat, name: string, asUsize: Num -> nat)
    requires pos + 1 < |ts| && ts[pos] == Ident(name)
    ensures ParseHead(ts, table, pos, asUsize) == (Parsed(Head(name, false, 0), pos + 1), table)
  {
  }

  /** `parse_prototype`'s head step on `binary op` with no precedence: 0, recorded in the table. */
  lemma BinaryHeadStep(ts: seq<Token>, table: Table, pos: nat, op: char, asUsize: Num -> nat)
    requires pos + 2 < |ts| && ts[pos] == Binary && ts[pos + 1] == Op(op) && !ts[pos + 2].Number?
    ensures ParseHead(ts, table, pos, asUsize) == (Parsed(Head(Ast.BinaryName(op), true, 0), pos + 2), table[op := 0])
  {
  }

  /** `parse_prototype`'s head step on `binary op n`: the precedence is `n`, recorded in the table. */
  lemma RankedHeadStep(ts: seq<Token>, table: Table, pos: nat, op: char, n: Num, asUsize: Num -> nat)
    requires pos + 3 < |ts| && ts[pos] == Binary && ts[pos + 1] == Op(op) && ts[pos + 2] == Number(n)
    ensures ParseHead(ts, table, pos, asUsize) ==
              (Parsed(Head(Ast.BinaryName(op), true, asUsize(n)), pos + 3), table[op := AsI32(asUsize(n))])
  {
  }

  /** `parse_prototype`'s head step on `unary op`. */
  lemma UnaryHeadStep(ts: seq<Token>, table: Table, pos: nat, op: char, asUsize: Num -> nat)
    requires pos + 2 < |ts| && ts[pos] == Unary && ts[pos + 1] == Op(op)
    ensures ParseHead(ts, table, pos, asUsize) == (Parsed(Head(Ast.UnaryName(op), true, 0), pos + 2), table)
  {
  }

  /** A printed head followed by `(` parses back to `HeadOf`, and updates the table as `TableAfter` says. */
  lemma HeadRoundTrip(ts: seq<Token>, table: Table, pos: nat, h: HeadText, asUsize: Num -> nat)
    requires pos + |PrintHead(h)| < |ts| && ts[pos..pos + |PrintHead(h)|] == PrintHead(h)
    requires ts[pos + |PrintHead(h)|] == LParen
    ensures ParseHead(ts, table, pos, asUsize) == (Parsed(HeadOf(h, asUsize), pos + |PrintHead(h)|), TableAfter(h, table, asUsize))
  {
    var k := |PrintHead(h)|;
    assert ts[pos] == ts[pos..pos + k][0];
    match h {
      case Named(name) =>
        NamedHeadStep(ts, table, pos, name, asUsize);
      case BinaryOp(op, None) =>
        assert ts[pos + 1] == ts[pos..pos + k][1];
        BinaryHeadStep(ts, table, pos, op, asUsize);
      case BinaryOp(op, Some(n)) =>
        assert ts[pos + 1] == ts[pos..pos + k][1];
        assert ts[pos + 2] == ts[pos..pos + k][2];
        RankedHeadStep(ts, table, pos, op, n, asUsize);
      case UnaryOp(op) =>
        assert ts[pos + 1] == ts[pos..pos + k][1];
        UnaryHeadStep(ts, table, pos, op, asUsize);
    }
  }

  /** `parse_prototype` reads the signature where the head stopped. */
  lemma PrototypeParts(ts: seq<Token>, table: Table, pos: nat, asUsize: Num -> nat, head: Head, next: nat, table': Table)
    requires pos <= |ts| && ParseHead(ts, table, pos, asUsize) == (Parsed(head, next), table')
    ensures next <= |ts| && ParsePrototype(ts, table, pos, asUsize) == (ParseSignature(ts, next, head), table')
  {
  }

  /** After a head, a signature that parses completes the prototype `ProtoOf` gives. */
  lemma SignatureOfHead(ts: seq<Token>, pos: nat, h: HeadText, args: seq<string>, rest: seq<Token>, asUsize: Num -> nat)
    requires pos + |PrintHead(h)| <= |ts| && ts[pos + |PrintHead(h)|..] == SignatureTokens(args) + rest
    ensures ParseSignature(ts, pos + |PrintHead(h)|, HeadOf(h, asUsize)) ==
              Parsed(ProtoOf(h, args, asUsize), pos + |PrintHead(h)| + |SignatureTokens(args)|)
  {
    var head := HeadOf(h, asUsize);
    assert ProtoOf(h, args, asUsize) == Ast.Prototype(head.name, args, head.isOp, head.prec);
    SignatureRoundTrip(ts, pos + |PrintHead(h)|, head, args, rest);
  }

  /** After a printed head, the printed signature completes the prototype `ProtoOf` gives. */
  lemma SignatureAfterHead(ts: seq<Token>, pos: nat, h: HeadText, args: seq<string>, rest: seq<Token>, asUsize: Num -> nat)
    requires pos <= |ts| && ts[pos..] == PrintProto(h, args) + rest
    ensures pos + |PrintHead(h)| <= |ts|
    ensures ParseSignature(ts, pos + |PrintHead(h)|, HeadOf(h, asUsize)) == Parsed(ProtoOf(h, args, asUsize), pos + |PrintProto(h, args)|)
  {
    DropPrefix(ts, pos, PrintHead(h), SignatureTokens(args), rest);
    SignatureOfHead(ts, pos, h, args, rest, asUsize);
  }

  /** A printed prototype parses back to `ProtoOf`, ending after its `)`, with the table `TableAfter` gives. */
  lemma PrototypeRoundTrip(ts: seq<Token>, table: Table, pos: nat, h: HeadText, args: seq<string>, rest: seq<Token>, asUsize: Num -> nat)
    requires pos <= |ts| && ts[pos..] == PrintProto(h, args) + rest
    ensures ParsePrototype(ts, table, pos, asUsize) ==
              (Parsed(ProtoOf(h, args, asUsize), pos + |PrintProto(h, args)|), TableAfter(h, table, asUsize))
  {
    DropPrefix(ts, pos, PrintHead(h), SignatureTokens(args), rest);
    assert ts[pos + |PrintHead(h)|] == ts[pos + |PrintHead(h)|..][0] == LParen;
    HeadRoundTrip(ts, table, pos, h, asUsize);
    SignatureAfterHead(ts, pos, h, args, rest, asUsize);
    PrototypeParts(ts, table, pos, asUsize, HeadOf(h, asUsize), pos + |PrintHead(h)|, TableAfter(h, table, asUsize));
  }

  /** `parse_def` parses the body where the prototype stopped, with the prototype's table. */
  lemma DefParts(ts: seq<Token>, table: Table, asUsize: Num -> nat, p: Ast.Prototype, next: nat, table': Table, e: Ast.Expr, end: nat)
    requires 0 < |ts| && ParsePrototype(ts, table, 1, asUsize) == (Parsed(p, next), table')
    requires next <= |ts| && ParseExpr(ts, table', next) == Parsed(e, end)
    ensures ParseDef(ts, table, 0, asUsize) == (Parsed(Ast.Function(p, Some(e), false), end), table')
  {
  }

  /** `parse_extern` stops where the prototype stopped. */
  lemma ExternParts(ts: seq<Token>, table: Table, asUsize: Num -> nat, p: Ast.Prototype, next: nat, table': Table)
    requires 0 < |ts| && ParsePrototype(ts, table, 1, asUsize) == (Parsed(p, next), table')
    ensures ParseExtern(ts, table, 0, asUsize) == (Parsed(Ast.Function(p, None, false), next), table')
  {
  }

  /** `parse` accepts a declaration that consumes every token. */
  lemma ParseWhole(ts: seq<Token>, table: Table, anonName: string, asUsize: Num -> nat, f: Ast.Function, table': Table)
    requires 0 < |ts| && (ts[0].Def? || ts[0].Extern?)
    requires ts[0].Def? ==> ParseDef(ts, table, 0, asUsize) == (Parsed(f, |ts|), table')
    requires ts[0].Extern? ==> ParseExtern(ts, table, 0, asUsize) == (Parsed(f, |ts|), table')
    ensures Parse(ts, table, anonName, asUsize) == (Ok(f), table')
  {
  }

  /** An `extern` whose prototype parses through the last token is accepted by `parse`. */
  lemma ExternWhole(ts: seq<Token>, table: Table, anonName: string, asUsize: Num -> nat, p: Ast.Prototype, table': Table)
    requires 0 < |ts| && ts[0] == Extern && ParsePrototype(ts, table, 1, asUsize) == (Parsed(p, |ts|), table')
    ensures Parse(ts, table, anonName, asUsize) == (Ok(Ast.Function(p, None, false)), table')
  {
    ExternParts(ts, table, asUsize, p, |ts|, table');
    ParseWhole(ts, table, anonName, asUsize, Ast.Function(p, None, false), table');
  }

  /** Where the parts of `def head(args) body` sit in its tokens. */
  lemma DefSlices(ts: seq<Token>, h: HeadText, args: seq<string>, body: seq<Token>)
    requires ts == [Def] + PrintProto(h, args) + body
    ensures |ts| == 1 + |PrintProto(h, args)| + |body| && ts[0] == Def
    ensures ts[1..] == PrintProto(h, args) + body
    ensures ts[1 + |PrintProto(h, args)|..] == body + []
  {
    assert ts[1 + |PrintProto(h, args)|..] == body;
  }

  /** A printed expression that ends the tokens parses back through the last token. */
  lemma BodyParsesBack(ts: seq<Token>, pos: nat, e: Ast.Expr, table: Table)
    requires ParserRoundTrip.WellFormed(e, table)
    requires pos <= |ts| && ts[pos..] == ParserRoundTrip.Print(e) + [] && |ts| == pos + |ParserRoundTrip.Print(e)|
    ensures ParseExpr(ts, table, pos) == Parsed(e, |ts|)
  {
    ParserRoundTrip.ParsesExpr(ts, table, pos, e, []);
  }

  /** In `def head(args) body`, the prototype parses back from the token after `def`. */
  lemma DefPrototypeBack(ts: seq<Token>, table: Table, h: HeadText, args: seq<string>, body: seq<Token>, asUsize: Num -> nat)
    requires 1 <= |ts| && ts[1..] == PrintProto(h, args) + body
    ensures 1 + |PrintProto(h, args)| <= |ts|
    ensures ParsePrototype(ts, table, 1, asUsize) ==
              (Parsed(ProtoOf(h, args, asUsize), 1 + |PrintProto(h, args)|), TableAfter(h, table, asUsize))
  {
    PrototypeRoundTrip(ts, table, 1, h, args, body, asUsize);
  }

  /** A `def` whose prototype and body parse, the body through the last token, is accepted by `parse`. */
  lemma DefWhole(ts: seq<Token>, table: Table, anonName: string, asUsize: Num -> nat, p: Ast.Prototype, next: nat, table': Table, e: Ast.Expr)
    requires 0 < |ts| && ts[0] == Def && ParsePrototype(ts, table, 1, asUsize) == (Parsed(p, next), table')
    requires next <= |ts| && ParseExpr(ts, table', next) == Parsed(e, |ts|)
    ensures Parse(ts, table, anonName, asUsize) == (Ok(Ast.Function(p, Some(e), false)), table')
  {
    DefParts(ts, table, asUsize, p, next, table', e, |ts|);
    ParseWhole(ts, table, anonName, asUsize, Ast.Function(p, Some(e), false), table');
  }

  /**
   * `def head(args) body` parses to the definition of `ProtoOf(h, args)` with
   * that body, and the body is read with the table the head left: a binary
   * definition's own precedence already applies inside its body.
   */
  lemma DefRoundTrip(h: HeadText, args: seq<string>, e: Ast.Expr, table: Table, anonName: string, asUsize: Num -> nat)
    requires ParserRoundTrip.WellFormed(e, TableAfter(h, table, asUsize))
    ensures Parse([Def] + PrintProto(h, args) + ParserRoundTrip.Print(e), table, anonName, asUsize) ==
              (Ok(Ast.Function(ProtoOf(h, args, asUsize), Some(e), false)), TableAfter(h, table, asUsize))
  {
    var ts := [Def] + PrintProto(h, args) + ParserRoundTrip.Print(e);
    var next := 1 + |PrintProto(h, args)|;
    DefSlices(ts, h, args, ParserRoundTrip.Print(e));
    DefPrototypeBack(ts, table, h, args, ParserRoundTrip.Print(e), asUsize);
    BodyParsesBack(ts, next, e, TableAfter(h, table, asUsize));
    DefWhole(ts, table, anonName, asUsize, ProtoOf(h, args, asUsize), next, TableAfter(h, table, asUsize), e);
  }

  /** `extern head(args)` parses to the declaration of `ProtoOf(h, args)` with no body. */
  lemma ExternRoundTrip(h: HeadText, args: seq<string>, table: Table, anonName: string, asUsize: Num -> nat)
    ensures Parse([Extern] + PrintProto(h, args), table, anonName, asUsize) ==
              (Ok(Ast.Function(ProtoOf(h, args, asUsize), None, false)), TableAfter(h, table, asUsize))
  {
    var ts := [Extern] + PrintProto(h, args);
    assert ts[0..] == [Extern] + PrintProto(h, args) + [];
    DropPrefix(ts, 0, [Extern], PrintProto(h, args), []);
    PrototypeRoundTrip(ts, table, 1, h, args, [], asUsize);
    ExternWhole(ts, table, anonName, asUsize, ProtoOf(h, args, asUsize), TableAfter(h, table, asUsize));
  }
}
