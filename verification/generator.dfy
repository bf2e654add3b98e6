/**
  One run of the generator for one interface rule: walk the parsed
  declarations, keep the functions whose name contains the prefix, emit
  their five fragments into five parallel lists, and assemble the interface
  and implementation documents together with the count of generated
  functions.
 */
module Generator {
  import opened Options
  import opened Text
  import opened Decimal
  import opened Decls
  import opened Render
  import opened Emitter
  import opened Documents

  /** One interface generation rule: the library's short name, its header file and the name prefix. */
  datatype InterfaceRule = InterfaceRule(name: string, headerFile: string, prefix: string)

  /** The one rule the generator is configured with. */
  const Hdf5Rule := InterfaceRule("hdf5", "hdf5.h", "H5")

  /** The namespace token: the interface name upper-cased. */
  function Namespace(name: string): string
  {
    Upper(name)
  }

  lemma Hdf5Namespace()
    ensures Namespace(Hdf5Rule.name) == "HDF5"
  {
  }

  /** The five lists the main loop appends to. */
  datatype FragmentLists = FragmentLists(
    macros: seq<string>,
    bindings: seq<string>,
    typedefs: seq<string>,
    virtuals: seq<string>,
    wrappers: seq<string>)

  /** The five lists have one entry per emitted function each. */
  predicate Parallel(f: FragmentLists)
  {
    && |f.bindings| == |f.macros|
    && |f.typedefs| == |f.macros|
    && |f.virtuals| == |f.macros|
    && |f.wrappers| == |f.macros|
  }

  /** The i-th entry of each list, read back as one bundle. */
  function BundleAt(f: FragmentLists, i: nat): Bundle
    requires Parallel(f) && i < |f.macros|
  {
    Bundle(f.macros[i], f.bindings[i], f.typedefs[i], f.virtuals[i], f.wrappers[i])
  }

  /** The lists as a whole: the bundle of the i-th kept function, spread over the five lists. */
  function Emitted(decls: seq<Decl>, prefix: string, ns: string): FragmentLists
  {
    var sel := Filter(decls, prefix);
    FragmentLists(
      seq(|sel|, i requires 0 <= i < |sel| => Emit(sel[i], ns).macro),
      seq(|sel|, i requires 0 <= i < |sel| => Emit(sel[i], ns).binding),
      seq(|sel|, i requires 0 <= i < |sel| => Emit(sel[i], ns).typedef),
      seq(|sel|, i requires 0 <= i < |sel| => Emit(sel[i], ns).virtual),
      seq(|sel|, i requires 0 <= i < |sel| => Emit(sel[i], ns).wrapper))
  }

  /** The lists hold, entry by entry, the fragments of the functions `kept`, in order. */
  predicate Holds(f: FragmentLists, kept: seq<Decl>, ns: string)
  {
    && Parallel(f)
    && |f.macros| == |kept|
    && forall k :: 0 <= k < |kept| ==> BundleAt(f, k) == Emit(kept[k], ns)
  }

  /** Appends one bundle at the end of the five lists. */
  function Append(f: FragmentLists, b: Bundle): (g: FragmentLists)
    requires Parallel(f)
    ensures Parallel(g) && |g.macros| == |f.macros| + 1
    ensures forall k :: 0 <= k < |f.macros| ==> BundleAt(g, k) == BundleAt(f, k)
    ensures BundleAt(g, |f.macros|) == b
  {
    FragmentLists(f.macros + [b.macro], f.bindings + [b.binding], f.typedefs + [b.typedef],
                  f.virtuals + [b.virtual], f.wrappers + [b.wrapper])
  }

  /** Appending the bundle of one more function keeps the lists in step with the kept functions. */
  lemma HoldsAppend(f: FragmentLists, kept: seq<Decl>, ns: string, d: Decl)
    requires Holds(f, kept, ns)
    ensures Holds(Append(f, Emit(d, ns)), kept + [d], ns)
  {
    var g := Append(f, Emit(d, ns));
    forall k | 0 <= k < |kept| + 1
      ensures BundleAt(g, k) == Emit((kept + [d])[k], ns)
    {
      if k < |kept| {
        assert (kept + [d])[k] == kept[k];
      }
    }
  }

  /** Lists that hold the fragments of `kept` are the lists spelled out entry by entry. */
  lemma HoldsIsEmitted(f: FragmentLists, decls: seq<Decl>, prefix: string, ns: string)
    requires Holds(f, Filter(decls, prefix), ns)
    ensures f == Emitted(decls, prefix, ns)
  {
    var sel := Filter(decls, prefix);
    var e := Emitted(decls, prefix, ns);
    forall k | 0 <= k < |sel|
      ensures f.macros[k] == e.macros[k] && f.bindings[k] == e.bindings[k]
      ensures f.typedefs[k] == e.typedefs[k] && f.virtuals[k] == e.virtuals[k]
      ensures f.wrappers[k] == e.wrappers[k]
    {
      assert BundleAt(f, k) == Emit(sel[k], ns);
    }
    assert f.macros == e.macros && f.bindings == e.bindings && f.typedefs == e.typedefs;
    assert f.virtuals == e.virtuals && f.wrappers == e.wrappers;
  }

  /**
    The main loop over the top-level declarations. Non-function declarations
    and functions whose name does not contain the prefix are skipped; for
    every other one the argument lists are rendered once and one fragment is
    appended to each of the five lists. Afterwards the lists are parallel and
    their i-th entries are the fragments of the i-th kept function.
   */
  method GenerateFragments(decls: seq<Decl>, prefix: string, ns: string) returns (f: FragmentLists)
    ensures Parallel(f)
    ensures |f.macros| == |Filter(decls, prefix)|
    ensures forall i :: 0 <= i < |f.macros| ==> BundleAt(f, i) == Emit(Filter(decls, prefix)[i], ns)
    ensures f == Emitted(decls, prefix, ns)
  {
    f := FragmentLists([], [], [], [], []);
    var i := 0;
    while i < |decls|
      invariant 0 <= i <= |decls|
      invariant Holds(f, Filter(decls[..i], prefix), ns)
    {
      var d := decls[i];
      assert decls[..i + 1][..i] == decls[..i];
      if d.kind == FunctionDecl {
        if Contains(d.name, prefix) {
          var args, argNames := RenderArguments(d.params);
          var argsText := Join(args, ", ");
          var namesText := Join(argNames, ", ");
          var b := Bundle(
            MacroFragment(d.name, d.resultSpelling, argsText, namesText, ns),
            BindingFragment(d.name),
            TypedefFragment(d.name, d.resultSpelling, argsText, namesText, ns),
            VirtualFragment(d.resultSpelling, d.name, argsText),
            WrapperFragment(d.name, d.resultSpelling, argsText, namesText, ns));
          assert b == Emit(d, ns);
          HoldsAppend(f, Filter(decls[..i], prefix), ns, d);
          f := Append(f, b);
        }
      }
      i := i + 1;
    }
    assert decls[..i] == decls;
    HoldsIsEmitted(f, decls, prefix, ns);
  }

  /** What one run hands to the output sink and the log line: two documents and the count. */
  datatype GeneratedModule = GeneratedModule(interfaceDoc: string, implementationDoc: string, count: nat)

  /** Document assembly: every block is the `"".join` of its list, and the count is the length of the macro list. */
  function Assemble(rule: InterfaceRule, timestamp: string, f: FragmentLists): GeneratedModule
  {
    var ns := Namespace(rule.name);
    var count := |f.macros|;
    GeneratedModule(
      InterfaceDocument(rule.headerFile, ns, Concat(f.virtuals), Concat(f.typedefs), timestamp),
      ImplementationDocument(rule.name, ns, Concat(f.macros), Concat(f.bindings), NatToString(count),
                             Concat(f.wrappers), timestamp),
      count)
  }

  /** One generation run for one rule; the timestamp is the clock reading, taken once per process. */
  function Generate(rule: InterfaceRule, decls: seq<Decl>, timestamp: string): GeneratedModule
  {
    Assemble(rule, timestamp, Emitted(decls, rule.prefix, Namespace(rule.name)))
  }

  /**
    The count substituted into the implementation document and reported in
    the log is the number of kept functions: the `count_<name>` function of
    the implementation returns a numeral that reads back as that number.
   */
  lemma CountIsMatchedFunctions(rule: InterfaceRule, decls: seq<Decl>, timestamp: string)
    ensures var m := Generate(rule, decls, timestamp);
      && m.count == |Filter(decls, rule.prefix)|
      && m.count == |SelectedPositions(decls, rule.prefix)|
      && Contains(m.implementationDoc, CountFunction(rule.name, NatToString(m.count)))
      && ParseDecimal(NatToString(m.count)) == Some(|Filter(decls, rule.prefix)|)
  {
    var ns := Namespace(rule.name);
    var f := Emitted(decls, rule.prefix, ns);
    var m := Generate(rule, decls, timestamp);
    FilterKeepsSelectedInOrder(decls, rule.prefix);
    ImplementationEmbeds(rule.name, ns, Concat(f.macros), Concat(f.bindings), NatToString(|f.macros|),
                         Concat(f.wrappers), timestamp);
    ParseNatToString(m.count);
  }

  /**
    Every kept function's fragments reach the documents: its virtual
    declaration and typedef are in the interface, its macro, binding and
    wrapper are in the implementation.
   */
  lemma EveryMatchIsEmitted(rule: InterfaceRule, decls: seq<Decl>, timestamp: string, i: nat)
    requires i < |Filter(decls, rule.prefix)|
    ensures var m := Generate(rule, decls, timestamp);
      var b := Emit(Filter(decls, rule.prefix)[i], Namespace(rule.name));
      && Contains(m.interfaceDoc, b.virtual) && Contains(m.interfaceDoc, b.typedef)
      && Contains(m.implementationDoc, b.macro) && Contains(m.implementationDoc, b.binding)
      && Contains(m.implementationDoc, b.wrapper)
  {
    var ns := Namespace(rule.name);
    var f := Emitted(decls, rule.prefix, ns);
    var m := Generate(rule, decls, timestamp);
    InterfaceEmbeds(rule.headerFile, ns, Concat(f.virtuals), Concat(f.typedefs), timestamp);
    ImplementationEmbeds(rule.name, ns, Concat(f.macros), Concat(f.bindings), NatToString(|f.macros|),
                         Concat(f.wrappers), timestamp);
    ConcatContainsPart(f.virtuals, i);
    ConcatContainsPart(f.typedefs, i);
    ConcatContainsPart(f.macros, i);
    ConcatContainsPart(f.bindings, i);
    ConcatContainsPart(f.wrappers, i);
    ContainsTransitive(m.interfaceDoc, Concat(f.virtuals), f.virtuals[i]);
    ContainsTransitive(m.interfaceDoc, Concat(f.typedefs), f.typedefs[i]);
    ContainsTransitive(m.implementationDoc, Concat(f.macros), f.macros[i]);
    ContainsTransitive(m.implementationDoc, Concat(f.bindings), f.bindings[i]);
    ContainsTransitive(m.implementationDoc, Concat(f.wrappers), f.wrappers[i]);
  }

  /**
    With no kept function the count is 0 and both documents are their bare
    skeletons: every aggregate block is the empty string.
   */
  lemma NoMatchesGiveSkeletons(rule: InterfaceRule, decls: seq<Decl>, timestamp: string)
    requires forall j :: 0 <= j < |decls| ==> !Selected(decls[j], rule.prefix)
    ensures var m := Generate(rule, decls, timestamp); var ns := Namespace(rule.name);
      && m.count == 0
      && m.interfaceDoc == InterfaceDocument(rule.headerFile, ns, "", "", timestamp)
      && m.implementationDoc == ImplementationDocument(rule.name, ns, "", "", "0", "", timestamp)
  {
    var f := Emitted(decls, rule.prefix, Namespace(rule.name));
    FilterEmptyIffNoneSelected(decls, rule.prefix);
    assert f.macros == [] && f.bindings == [] && f.wrappers == [];
    assert f.virtuals == [] && f.typedefs == [];
  }

  /** The declaration `hid_t H5Fopen(const char *filename, unsigned flags)`. */
  const H5Fopen := Decl(FunctionDecl, "H5Fopen", "hid_t",
                        [Param("filename", Scalar("const char *")), Param("flags", Scalar("unsigned"))])

  /** `H5Fopen` is kept under the prefix `H5`. */
  lemma OpenSelected()
    ensures Filter([H5Fopen], "H5") == [H5Fopen]
  {
    assert Contains("H5Fopen", "H5") by {
      assert "H5Fopen"[..2] == "H5";
    }
    assert [H5Fopen][..0] == [];
  }

  /** The argument texts of `H5Fopen`. */
  lemma OpenArguments()
    ensures ArgsText(H5Fopen.params) == "const char * filename, unsigned flags"
    ensures NamesText(H5Fopen.params) == "filename, flags"
  {
    var ps := H5Fopen.params;
    assert ArgDecls(ps)[0] == "const char * filename" && ArgDecls(ps)[1] == "unsigned flags";
    assert ArgDecls(ps) == ["const char * filename", "unsigned flags"];
    assert ArgNames(ps) == ["filename", "flags"];
    assert ArgDecls(ps)[1..] == ["unsigned flags"];
    assert ArgNames(ps)[1..] == ["flags"];
  }

  /** The argument text and the two lists of `H5Fopen` as they appear in its fragments. */
  const OpenArgs := "const char * filename, unsigned flags"
  const OpenLists := "(" + OpenArgs + "), (filename, flags)"

  const OpenMacro := "\n    GOTCHA_MACRO(H5Fopen, hid_t, " + OpenLists + ", brahma::HDF5);\n"
  const OpenVirtual := "\n    virtual hid_t H5Fopen(" + OpenArgs + ");\n"
  const OpenBinding := "\n    GOTCHA_BINDING_MACRO(H5Fopen);\n"

  lemma OpenMacroText()
    ensures Emit(H5Fopen, "HDF5").macro == OpenMacro
  {
    OpenArguments();
    var args, names := ArgsText(H5Fopen.params), NamesText(H5Fopen.params);
    assert args == OpenArgs;
    assert "(" + args + "), (" + names + ")" == "(" + OpenArgs + ("), (" + "filename, flags" + ")");
    assert "), (" + "filename, flags" + ")" == "), (filename, flags)";
    MacroFragmentShape("H5Fopen", "hid_t", args, names, "HDF5");
    assert "\n    GOTCHA_MACRO(" + "H5Fopen" + ", " + "hid_t" + ", " == "\n    GOTCHA_MACRO(H5Fopen, hid_t, ";
    assert ", brahma::" + "HDF5" + ");\n" == ", brahma::HDF5);\n";
  }

  lemma OpenVirtualText()
    ensures Emit(H5Fopen, "HDF5").virtual == OpenVirtual
  {
    OpenArguments();
    assert "\n    virtual " + "hid_t" + " " + "H5Fopen" + "(" == "\n    virtual hid_t H5Fopen(";
  }

  /**
    A header declaring only `H5Fopen`, under the HDF5 rule, yields exactly
    one function: one macro and one binding naming it, the virtual
    declaration `virtual hid_t H5Fopen(const char * filename, unsigned flags);`
    and a count of 1.
   */
  lemma OpenScenario(timestamp: string)
    ensures var f := Emitted([H5Fopen], Hdf5Rule.prefix, "HDF5");
      f.macros == [OpenMacro] && f.bindings == [OpenBinding] && f.virtuals == [OpenVirtual]
    ensures Generate(Hdf5Rule, [H5Fopen], timestamp).count == 1
  {
    OpenSelected();
    OpenMacroText();
    OpenVirtualText();
    Hdf5Namespace();
    var f := Emitted([H5Fopen], Hdf5Rule.prefix, "HDF5");
    assert |f.macros| == 1 && f.macros[0] == OpenMacro;
    assert |f.bindings| == 1 && f.bindings[0] == OpenBinding;
    assert |f.virtuals| == 1 && f.virtuals[0] == OpenVirtual;
  }
}
