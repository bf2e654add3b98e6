/**
  The five fragment templates of the generator and their substitution.
  Each template is written as the concatenation of its literal pieces with
  the substituted values, in the order the template text has them.
 */
module Emitter {
  import opened Text
  import opened Decls
  import opened Render

  /** `(args), (arg names)`: the two parenthesised lists of a gotcha macro. */
  function ArgLists(args: string, argNames: string): string
  {
    "(" + args + "), (" + argNames + ")"
  }

  /** `name(args)`: the declarator shared by the virtual declaration and the wrapper. */
  function Declarator(name: string, args: string): string
  {
    name + "(" + args + ")"
  }

  /** The text both gotcha macro declarations share after their macro keyword. */
  function MacroArguments(name: string, returnType: string, args: string, argNames: string, ns: string): string
  {
    "(" + name + ", " + returnType + ", " + ArgLists(args, argNames) + ", brahma::" + ns + ");\n"
  }

  /** The macro template: `GOTCHA_MACRO(name, return type, (args), (arg names), brahma::NS);`. */
  function MacroFragment(name: string, returnType: string, args: string, argNames: string, ns: string): string
  {
    "\n    GOTCHA_MACRO" + MacroArguments(name, returnType, args, argNames, ns)
  }

  /** The macro binding template: `GOTCHA_BINDING_MACRO(name);`. */
  function BindingFragment(name: string): string
  {
    "\n    GOTCHA_BINDING_MACRO(" + name + ");\n"
  }

  /** The macro typedef template: the macro declaration under `GOTCHA_MACRO_TYPEDEF`. */
  function TypedefFragment(name: string, returnType: string, args: string, argNames: string, ns: string): string
  {
    "\n    GOTCHA_MACRO_TYPEDEF" + MacroArguments(name, returnType, args, argNames, ns)
  }

  /** The virtual function template: `virtual R F(A);`. */
  function VirtualFragment(returnType: string, name: string, args: string): string
  {
    "\n    virtual " + returnType + " " + Declarator(name, args) + ";\n"
  }

  /** The wrapper function template: `R NS::F(A) { BRAHMA_UNWRAPPED_FUNC(F, R, (N)); return result; }`. */
  function WrapperFragment(name: string, returnType: string, args: string, argNames: string, ns: string): string
  {
    "\n    " + returnType + " " + ns + "::" + Declarator(name, args) + " {\n        BRAHMA_UNWRAPPED_FUNC("
    + name + ", " + returnType + ", " + ("(" + argNames + ")") + ");\n        return result;\n    }\n"
  }

  /** The five fragments generated for one function. */
  datatype Bundle = Bundle(macro: string, binding: string, typedef: string, virtual: string, wrapper: string)

  /**
    The body of the main loop for one kept function: the argument texts are
    rendered once and every template receives the same name, return type,
    argument text, name text and namespace token.
   */
  function Emit(d: Decl, ns: string): Bundle
  {
    var args := ArgsText(d.params);
    var argNames := NamesText(d.params);
    Bundle(
      MacroFragment(d.name, d.resultSpelling, args, argNames, ns),
      BindingFragment(d.name),
      TypedefFragment(d.name, d.resultSpelling, args, argNames, ns),
      VirtualFragment(d.resultSpelling, d.name, args),
      WrapperFragment(d.name, d.resultSpelling, args, argNames, ns))
  }

  /** The macro fragment as three runs: the opening up to the return type, the two lists, the closing. */
  lemma MacroFragmentShape(name: string, r: string, a: string, n: string, ns: string)
    ensures MacroFragment(name, r, a, n, ns)
         == ("\n    GOTCHA_MACRO(" + name + ", " + r + ", ") + ArgLists(a, n) + (", brahma::" + ns + ");\n")
  {
  }

  /** Both gotcha macro fragments carry `(args), (names)` and the function's name. */
  lemma MacroArgumentsCarry(name: string, r: string, a: string, n: string, ns: string)
    ensures Contains(MacroArguments(name, r, a, n, ns), ArgLists(a, n))
    ensures Contains(MacroArguments(name, r, a, n, ns), name)
    ensures Contains(MacroArguments(name, r, a, n, ns), "(" + name + ", " + r + ", ")
  {
    var lists := ArgLists(a, n);
    var before := "(" + name + ", " + r + ", ";
    ContainsSelf(before);
    ContainsExtendRight(before, lists, before);
    ContainsExtendRight(before + lists, ", brahma::", before);
    ContainsExtendRight(before + lists + ", brahma::", ns, before);
    ContainsExtendRight(before + lists + ", brahma::" + ns, ");\n", before);
    ContainsSelf(lists);
    ContainsExtendLeft(before, lists, lists);
    ContainsExtendRight(before + lists, ", brahma::", lists);
    ContainsExtendRight(before + lists + ", brahma::", ns, lists);
    ContainsExtendRight(before + lists + ", brahma::" + ns, ");\n", lists);
    ContainsSelf(name);
    ContainsExtendLeft("(", name, name);
    ContainsExtendRight("(" + name, ", ", name);
    ContainsExtendRight("(" + name + ", ", r, name);
    ContainsExtendRight("(" + name + ", " + r, ", ", name);
    ContainsExtendRight(before, lists, name);
    ContainsExtendRight(before + lists, ", brahma::", name);
    ContainsExtendRight(before + lists + ", brahma::", ns, name);
    ContainsExtendRight(before + lists + ", brahma::" + ns, ");\n", name);
  }

  /** The macro and typedef share their text after the keyword and carry `(args), (names)` and the name. */
  lemma MacroAgreement(name: string, r: string, a: string, n: string, ns: string)
    ensures MacroFragment(name, r, a, n, ns)[|"\n    GOTCHA_MACRO"|..]
         == TypedefFragment(name, r, a, n, ns)[|"\n    GOTCHA_MACRO_TYPEDEF"|..]
    ensures Contains(MacroFragment(name, r, a, n, ns), ArgLists(a, n))
    ensures Contains(TypedefFragment(name, r, a, n, ns), ArgLists(a, n))
    ensures Contains(MacroFragment(name, r, a, n, ns), name)
    ensures Contains(TypedefFragment(name, r, a, n, ns), name)
    ensures Contains(MacroFragment(name, r, a, n, ns), "(" + name + ", " + r + ", ")
    ensures Contains(TypedefFragment(name, r, a, n, ns), "(" + name + ", " + r + ", ")
  {
    var tail := MacroArguments(name, r, a, n, ns);
    var head := "(" + name + ", " + r + ", ";
    MacroArgumentsCarry(name, r, a, n, ns);
    ContainsExtendLeft("\n    GOTCHA_MACRO", tail, head);
    ContainsExtendLeft("\n    GOTCHA_MACRO_TYPEDEF", tail, head);
    ContainsExtendLeft("\n    GOTCHA_MACRO", tail, ArgLists(a, n));
    ContainsExtendLeft("\n    GOTCHA_MACRO_TYPEDEF", tail, ArgLists(a, n));
    ContainsExtendLeft("\n    GOTCHA_MACRO", tail, name);
    ContainsExtendLeft("\n    GOTCHA_MACRO_TYPEDEF", tail, name);
  }

  /** The virtual declaration carries the declarator `name(args)` and the name. */
  lemma VirtualAgreement(r: string, name: string, a: string)
    ensures Contains(VirtualFragment(r, name, a), Declarator(name, a))
    ensures Contains(VirtualFragment(r, name, a), name)
    ensures Contains(VirtualFragment(r, name, a), r + " " + Declarator(name, a))
  {
    var head := "\n    virtual " + r + " ";
    var decl := Declarator(name, a);
    assert VirtualFragment(r, name, a) == "\n    virtual " + (r + " " + decl) + ";\n";
    ContainsInfix("\n    virtual ", r + " " + decl, ";\n");
    ContainsSelf(decl);
    ContainsExtendLeft(head, decl, decl);
    ContainsExtendRight(head + decl, ";\n", decl);
    ContainsSelf(name);
    ContainsExtendRight(name, "(" + a + ")", name);
    assert decl == name + ("(" + a + ")");
    ContainsTransitive(VirtualFragment(r, name, a), decl, name);
  }

  /** The wrapper definition carries the declarator `name(args)`, forwards `(names)` and names the function. */
  lemma WrapperAgreement(name: string, r: string, a: string, n: string, ns: string)
    ensures Contains(WrapperFragment(name, r, a, n, ns), Declarator(name, a))
    ensures Contains(WrapperFragment(name, r, a, n, ns), "(" + n + ")")
    ensures Contains(WrapperFragment(name, r, a, n, ns), name)
    ensures Contains(WrapperFragment(name, r, a, n, ns), "\n    " + r + " " + ns + "::" + Declarator(name, a))
  {
    var decl := Declarator(name, a);
    var head := "\n    " + r + " " + ns + "::";
    var forwarded := "(" + n + ")";
    var s1 := head + decl;
    var s2 := s1 + " {\n        BRAHMA_UNWRAPPED_FUNC(";
    var s3 := s2 + name;
    var s4 := s3 + ", ";
    var s5 := s4 + r;
    var s6 := s5 + ", ";
    var s7 := s6 + forwarded;
    var close := ");\n        return result;\n    }\n";
    assert WrapperFragment(name, r, a, n, ns) == s7 + close;
    ContainsSelf(s1);
    ContainsExtendRight(s1, " {\n        BRAHMA_UNWRAPPED_FUNC(", s1);
    ContainsExtendRight(s2, name, s1);
    ContainsExtendRight(s3, ", ", s1);
    ContainsExtendRight(s4, r, s1);
    ContainsExtendRight(s5, ", ", s1);
    ContainsExtendRight(s6, forwarded, s1);
    ContainsExtendRight(s7, close, s1);
    ContainsSelf(forwarded);
    ContainsExtendLeft(s6, forwarded, forwarded);
    ContainsExtendRight(s7, close, forwarded);
    ContainsSelf(decl);
    ContainsExtendLeft(head, decl, decl);
    ContainsExtendRight(s1, " {\n        BRAHMA_UNWRAPPED_FUNC(", decl);
    ContainsExtendRight(s2, name, decl);
    ContainsExtendRight(s3, ", ", decl);
    ContainsExtendRight(s4, r, decl);
    ContainsExtendRight(s5, ", ", decl);
    ContainsExtendRight(s6, forwarded, decl);
    ContainsExtendRight(s7, close, decl);
    ContainsSelf(name);
    ContainsExtendRight(name, "(" + a + ")", name);
    assert decl == name + ("(" + a + ")");
    ContainsTransitive(s7 + close, decl, name);
  }

  /**
    The fragments of one function agree: the macro and the typedef are the
    same text under two macro keywords; both carry the parenthesised argument
    text followed by the parenthesised name text; the virtual declaration and
    the wrapper definition carry the same declarator `name(args)`; the wrapper
    forwards the same name text; every fragment names the function; and the
    macro, the typedef, the virtual declaration and the wrapper all give it
    the same return type.
   */
  lemma FragmentAgreement(d: Decl, ns: string)
    ensures var b := Emit(d, ns);
      b.macro[|"\n    GOTCHA_MACRO"|..] == b.typedef[|"\n    GOTCHA_MACRO_TYPEDEF"|..]
    ensures var b := Emit(d, ns); var lists := ArgLists(ArgsText(d.params), NamesText(d.params));
      Contains(b.macro, lists) && Contains(b.typedef, lists)
    ensures var b := Emit(d, ns); var declarator := Declarator(d.name, ArgsText(d.params));
      Contains(b.virtual, declarator) && Contains(b.wrapper, declarator)
    ensures Contains(Emit(d, ns).wrapper, "(" + NamesText(d.params) + ")")
    ensures var b := Emit(d, ns);
      Contains(b.macro, d.name) && Contains(b.binding, d.name) && Contains(b.typedef, d.name)
      && Contains(b.virtual, d.name) && Contains(b.wrapper, d.name)
    ensures var b := Emit(d, ns); var r := d.resultSpelling; var declarator := Declarator(d.name, ArgsText(d.params));
      && Contains(b.macro, "(" + d.name + ", " + r + ", ") && Contains(b.typedef, "(" + d.name + ", " + r + ", ")
      && Contains(b.virtual, r + " " + declarator)
      && Contains(b.wrapper, "\n    " + r + " " + ns + "::" + declarator)
  {
    var r, a, n := d.resultSpelling, ArgsText(d.params), NamesText(d.params);
    MacroAgreement(d.name, r, a, n, ns);
    VirtualAgreement(r, d.name, a);
    WrapperAgreement(d.name, r, a, n, ns);
    ContainsSelf(d.name);
    ContainsExtendLeft("\n    GOTCHA_BINDING_MACRO(", d.name, d.name);
    ContainsExtendRight("\n    GOTCHA_BINDING_MACRO(" + d.name, ");\n", d.name);
  }

  /**
    A function without parameters substitutes the empty string for both
    lists: its virtual declaration ends in `()`, both gotcha macros carry
    `(), ()` and the wrapper forwards `()`.
   */
  lemma NoParameterFragments(d: Decl, ns: string)
    requires |d.params| == 0
    ensures Emit(d, ns).virtual == "\n    virtual " + d.resultSpelling + " " + d.name + "();\n"
    ensures Contains(Emit(d, ns).macro, "(), ()") && Contains(Emit(d, ns).typedef, "(), ()")
    ensures Contains(Emit(d, ns).wrapper, d.name + "()")
  {
    var r, a, n := d.resultSpelling, ArgsText(d.params), NamesText(d.params);
    assert a == "" && n == "";
    assert ArgLists(a, n) == "(), ()";
    assert Declarator(d.name, a) == d.name + "()";
    MacroAgreement(d.name, r, a, n, ns);
    WrapperAgreement(d.name, r, a, n, ns);
  }
}
