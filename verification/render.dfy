/**
  Argument rendering: each kept function's parameters become a
  declaration-style argument list (`args`) and a list of names
  (`arg_names`), both joined with `", "` before they are substituted into
  the fragment templates. `ParseParam` and `ParseArgs` read the rendered
  text back and are the partners the round-trip lemmas use.
 */
module Render {
  import opened Options
  import opened Text
  import opened Decimal
  import opened Decls

  /** One entry of `args`, by the kind of the parameter's type. */
  function RenderParam(p: Param): string
  {
    match p.ty
    case IncompleteArray(elem) => elem + " " + p.name + "[]"
    case ConstantArray(elem, count) => elem + " " + p.name + "[" + NatToString(count) + "]"
    case Scalar(spelling) => spelling + " " + p.name
  }

  /** The list `args` of the source, one rendered entry per parameter. */
  function ArgDecls(ps: seq<Param>): seq<string>
  {
    seq(|ps|, i requires 0 <= i < |ps| => RenderParam(ps[i]))
  }

  /** The list `arg_names` of the source, one name per parameter, verbatim. */
  function ArgNames(ps: seq<Param>): seq<string>
  {
    seq(|ps|, i requires 0 <= i < |ps| => ps[i].name)
  }

  /**
    The value substituted for `args`. A rendered entry always holds at least
    the space between type and name, so the text is empty exactly when there
    are no parameters.
   */
  function ArgsText(ps: seq<Param>): (r: string)
    ensures r == "" <==> |ps| == 0
  {
    var parts := ArgDecls(ps);
    assert forall k :: 0 <= k < |parts| ==> parts[k] == RenderParam(ps[k]);
    JoinOfNonEmptyParts(parts, ", ");
    Join(parts, ", ")
  }

  /** The value substituted for `arg_names`; empty when there are no parameters. */
  function NamesText(ps: seq<Param>): (r: string)
    ensures |ps| == 0 ==> r == ""
    ensures |ps| == 1 ==> r == ps[0].name
  {
    Join(ArgNames(ps), ", ")
  }

  /**
    The loop of the source that fills `args` and `arg_names` side by side:
    both lists get exactly one entry per parameter, in parameter order; the
    entry of `args` is rendered by the kind of the parameter's type and the
    entry of `arg_names` is the parameter's spelling, verbatim.
   */
  method RenderArguments(ps: seq<Param>) returns (args: seq<string>, argNames: seq<string>)
    ensures |args| == |ps| && |argNames| == |ps|
    ensures forall i :: 0 <= i < |ps| && ps[i].ty.IncompleteArray? ==>
              args[i] == ps[i].ty.elem + " " + ps[i].name + "[]"
    ensures forall i :: 0 <= i < |ps| && ps[i].ty.ConstantArray? ==>
              args[i] == ps[i].ty.elem + " " + ps[i].name + "[" + NatToString(ps[i].ty.count) + "]"
    ensures forall i :: 0 <= i < |ps| && ps[i].ty.Scalar? ==>
              args[i] == ps[i].ty.spelling + " " + ps[i].name
    ensures forall i :: 0 <= i < |ps| ==> argNames[i] == ps[i].name
    ensures args == ArgDecls(ps) && argNames == ArgNames(ps)
  {
    args := [];
    argNames := [];
    var i := 0;
    while i < |ps|
      invariant 0 <= i <= |ps|
      invariant |args| == i && |argNames| == i
      invariant forall k :: 0 <= k < i ==> args[k] == RenderParam(ps[k])
      invariant forall k :: 0 <= k < i ==> argNames[k] == ps[k].name
    {
      var p := ps[i];
      var entry: string;
      match p.ty {
        case IncompleteArray(elem) =>
          entry := elem + " " + p.name + "[]";
        case ConstantArray(elem, count) =>
          entry := elem + " " + p.name + "[" + NatToString(count) + "]";
        case Scalar(spelling) =>
          entry := spelling + " " + p.name;
      }
      args := args + [entry];
      argNames := argNames + [p.name];
      i := i + 1;
    }
  }

  /** Splits a declarator at its last space into the type text and the name. */
  function SplitDeclarator(s: string): Option<(string, string)>
  {
    var k := LastIndex(s, ' ');
    if k < 0 then None else Some((s[..k], s[k + 1..]))
  }

  /**
    Reads one entry of `args` back: a trailing `[]` is an incomplete array,
    a trailing `[digits]` a fixed array, anything else a scalar; the name is
    what follows the last space.
   */
  function ParseParam(s: string): Option<Param>
  {
    if |s| > 0 && s[|s| - 1] == ']' then
      var j := LastIndex(s, '[');
      if j < 0 then None
      else
        var inner := s[j + 1..|s| - 1];
        match SplitDeclarator(s[..j])
        case None => None
        case Some((elem, name)) =>
          if inner == "" then Some(Param(name, IncompleteArray(elem)))
          else
            match ParseDecimal(inner)
            case None => None
            case Some(n) => Some(Param(name, ConstantArray(elem, n)))
    else
      match SplitDeclarator(s)
      case None => None
      case Some((spelling, name)) => Some(Param(name, Scalar(spelling)))
  }

  /** A name a C declaration can carry: no space, bracket or comma (it may be empty). */
  predicate NameWellFormed(name: string)
  {
    ' ' !in name && '[' !in name && ']' !in name && ',' !in name
  }

  /** The type's own text as the parser spells it. */
  function TypeText(t: ParamType): string
  {
    match t
    case Scalar(spelling) => spelling
    case IncompleteArray(elem) => elem
    case ConstantArray(elem, _) => elem
  }

  /** A parameter whose rendering can be read back unambiguously. */
  predicate ParamWellFormed(p: Param)
  {
    NameWellFormed(p.name) && ',' !in TypeText(p.ty)
  }

  lemma DigitsHaveNoSeparators(n: nat)
    ensures '[' !in NatToString(n) && ']' !in NatToString(n) && ' ' !in NatToString(n)
    ensures ',' !in NatToString(n)
  {
    var s := NatToString(n);
    assert forall i :: 0 <= i < |s| ==> IsDigit(s[i]);
  }

  /** A declarator `type name` splits back into its type text and its name. */
  lemma SplitDeclaratorOf(t: string, name: string)
    requires ' ' !in name
    ensures SplitDeclarator(t + " " + name) == Some((t, name))
  {
    var s := t + " " + name;
    assert forall m :: |t| < m < |s| ==> s[m] == name[m - |t| - 1];
    LastIndexIs(s, ' ', |t|);
    assert s[..|t|] == t && s[|t| + 1..] == name;
  }

  lemma ScalarRoundTrip(name: string, spelling: string)
    requires NameWellFormed(name)
    ensures ParseParam(RenderParam(Param(name, Scalar(spelling)))) == Some(Param(name, Scalar(spelling)))
  {
    var s := spelling + " " + name;
    assert RenderParam(Param(name, Scalar(spelling))) == s;
    if |name| > 0 {
      assert s[|s| - 1] == name[|name| - 1];
    } else {
      assert s[|s| - 1] == ' ';
    }
    SplitDeclaratorOf(spelling, name);
  }

  lemma IncompleteArrayRoundTrip(name: string, elem: string)
    requires NameWellFormed(name)
    ensures ParseParam(RenderParam(Param(name, IncompleteArray(elem)))) == Some(Param(name, IncompleteArray(elem)))
  {
    var head := elem + " " + name;
    var s := head + "[]";
    assert RenderParam(Param(name, IncompleteArray(elem))) == s;
    LastIndexIs(s, '[', |head|);
    assert s[..|head|] == head;
    assert s[|head| + 1..|s| - 1] == "";
    SplitDeclaratorOf(elem, name);
  }

  lemma ConstantArrayRoundTrip(name: string, elem: string, count: nat)
    requires NameWellFormed(name)
    ensures ParseParam(RenderParam(Param(name, ConstantArray(elem, count)))) == Some(Param(name, ConstantArray(elem, count)))
  {
    var head := elem + " " + name;
    var digits := NatToString(count);
    var s := head + "[" + digits + "]";
    assert RenderParam(Param(name, ConstantArray(elem, count))) == s;
    DigitsHaveNoSeparators(count);
    assert forall m :: |head| < m < |s| - 1 ==> s[m] == digits[m - |head| - 1];
    LastIndexIs(s, '[', |head|);
    assert s[..|head|] == head;
    assert s[|head| + 1..|s| - 1] == digits;
    ParseNatToString(count);
    SplitDeclaratorOf(elem, name);
  }

  /**
    Each kind of parameter is rendered so that its kind, its type or element
    type, its bound and its name can all be read back.
   */
  lemma RenderParamRoundTrip(p: Param)
    requires NameWellFormed(p.name)
    ensures ParseParam(RenderParam(p)) == Some(p)
  {
    match p.ty {
      case Scalar(spelling) => ScalarRoundTrip(p.name, spelling);
      case IncompleteArray(elem) => IncompleteArrayRoundTrip(p.name, elem);
      case ConstantArray(elem, count) => ConstantArrayRoundTrip(p.name, elem, count);
    }
  }

  /** Reads every entry of a split argument list; fails if any entry fails. */
  function ParseAll(parts: seq<string>): Option<seq<Param>>
  {
    if |parts| == 0 then Some([])
    else
      match (ParseParam(parts[0]), ParseAll(parts[1..]))
      case (Some(p), Some(rest)) => Some([p] + rest)
      case _ => None
  }

  /** Reads back a whole `args` text; the empty text is the empty parameter list. */
  function ParseArgs(s: string): Option<seq<Param>>
  {
    if s == "" then Some([]) else ParseAll(SplitComma(s))
  }

  lemma {:induction false} ParseAllRendered(ps: seq<Param>)
    requires forall i :: 0 <= i < |ps| ==> NameWellFormed(ps[i].name)
    ensures ParseAll(ArgDecls(ps)) == Some(ps)
  {
    if |ps| > 0 {
      RenderParamRoundTrip(ps[0]);
      assert ArgDecls(ps)[1..] == ArgDecls(ps[1..]);
      ParseAllRendered(ps[1..]);
      assert [ps[0]] + ps[1..] == ps;
    }
  }

  lemma RenderedHasNoComma(p: Param)
    requires ParamWellFormed(p)
    ensures ',' !in RenderParam(p)
  {
    match p.ty {
      case Scalar(_) =>
      case IncompleteArray(_) =>
      case ConstantArray(_, count) => DigitsHaveNoSeparators(count);
    }
  }

  /**
    The argument text is lossless: from `args` alone one recovers every
    parameter, its name, its kind, its element type and its bound, in order.
   */
  lemma ArgsRoundTrip(ps: seq<Param>)
    requires forall i :: 0 <= i < |ps| ==> ParamWellFormed(ps[i])
    ensures ParseArgs(ArgsText(ps)) == Some(ps)
  {
    if |ps| > 0 {
      var parts := ArgDecls(ps);
      forall k | 0 <= k < |parts|
        ensures ',' !in parts[k]
      {
        RenderedHasNoComma(ps[k]);
      }
      SplitJoin(parts);
      ParseAllRendered(ps);
    }
  }

  /** The name text lists every parameter's name, in order, when no name holds a comma. */
  lemma NamesRoundTrip(ps: seq<Param>)
    requires |ps| > 0
    requires forall i :: 0 <= i < |ps| ==> ',' !in ps[i].name
    ensures SplitComma(NamesText(ps)) == ArgNames(ps)
  {
    SplitJoin(ArgNames(ps));
  }

  /**
    The name text cannot tell a function without parameters from one with a
    single unnamed parameter, while the argument text can.
   */
  lemma UnnamedParameterAmbiguity(t: ParamType)
    ensures NamesText([Param("", t)]) == NamesText([])
    ensures ArgsText([Param("", t)]) != ArgsText([])
  {
  }

  /** A fixed array of four doubles named `buf`. */
  lemma FixedArrayExample()
    ensures RenderParam(Param("buf", ConstantArray("double", 4))) == "double buf[4]"
    ensures ArgNames([Param("buf", ConstantArray("double", 4))]) == ["buf"]
  {
    assert NatToString(4) == "4";
  }

  /** An incomplete array of chars named `path`. */
  lemma IncompleteArrayExample()
    ensures RenderParam(Param("path", IncompleteArray("char"))) == "char path[]"
  {
  }
}
