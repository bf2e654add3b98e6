# Brahma interface generator, modelled in Dafny

`tools/generate_interfaces.py` produces the gotcha-based interception layer
for a C library, which for this repository is HDF5. For each interface rule
`(name, header file, prefix)` it walks the top-level declarations that the C
parser reports. It keeps the function declarations whose name contains the
prefix. For each kept function it renders two argument strings: the
declaration-style `args` and the name list `arg_names`. It substitutes them
into five fragment templates:

- the gotcha macro;
- the binding macro;
- the macro typedef;
- the virtual member declaration;
- the wrapper definition.

The fragments go into five parallel lists. The lists are joined into the
interface header and the implementation file, along with the namespace
token (the name upper-cased) and the count of generated functions.

The model keeps this signature-to-text pipeline and nothing around it.

| file | module | content |
|---|---|---|
| `options.dfy` | `Options` | `Option` for the partial readers |
| `text.dfy` | `Text` | Several Python string operations: substring containment `in` (`Contains`), `", ".join` (`Join`) and `"".join` (`Concat`), `str.upper` (`Upper`). It also holds `SplitComma`, which reads a joined list back. |
| `decimal.dfy` | `Decimal` | `str(n)` for a count or an array bound (`NatToString`), and its reader `ParseDecimal` |
| `decls.dfy` | `Decls` | The parser's output as data: `Decl`, `Param`, and `ParamType`, with the three type shapes the generator distinguishes. Also the prefix filter. |
| `render.dfy` | `Render` | Argument rendering, and the readers `ParseParam` and `ParseArgs` that undo it |
| `emitter.dfy` | `Emitter` | The five fragment templates, and the agreement between the fragments of one function |
| `documents.dfy` | `Documents` | The two document templates. Each is cut at its placeholders, and the literal text between them is copied exactly. |
| `generator.dfy` | `Generator` | The main loop, document assembly, the count, and the HDF5 rule with an `H5Fopen` example |

`string.Template.substitute` is modelled as explicit concatenation of a
template's literal pieces with the substituted values. The source always
supplies every key, so the `KeyError` path cannot occur.

## Model

| member | source | states |
|---|---|---|
| Text.ContainsIffOccurs | tools/generate_interfaces.py:192 | The prefix test `prefix in name` holds exactly when the prefix occurs at some offset of the name. Both directions are stated. |
| Decls.Filter | tools/generate_interfaces.py:190-193 | Every kept declaration is a function declaration whose name contains the prefix. The output is never longer than the input. |
| Decls.FilterMembership | tools/generate_interfaces.py:190-193 | A declaration is kept if and only if it is in the input, is a function declaration, and has a name containing the prefix. Both directions are stated. |
| Decls.SelectedPositions | tools/generate_interfaces.py:190-193 | The positions of the kept declarations are strictly increasing. Each of them is selected, and every selected position is listed. |
| Decls.FilterKeepsSelectedInOrder | tools/generate_interfaces.py:190-193 | The k-th kept declaration is the declaration at the k-th selected position. Nothing is reordered, dropped or duplicated. |
| Decls.FilterAppend | tools/generate_interfaces.py:190-193 | The filter of a concatenation is the filter of the first part followed by the filter of the second. Declarations are judged one by one, independently of their neighbours. |
| Decls.FilterEmptyIffNoneSelected | tools/generate_interfaces.py:190-193 | Nothing is kept exactly when no declaration is a function whose name contains the prefix. |
| Render.RenderArguments | tools/generate_interfaces.py:197-208 | `args` and `arg_names` get one entry per parameter, in order. An incomplete array renders as `E n[]`, a constant array as `E n[N]`, and anything else as `T n`. The name entry is the parameter's spelling, verbatim. |
| Render.ArgsText | tools/generate_interfaces.py:215 | The substituted `args` text is empty if and only if there are no parameters. |
| Render.NamesText | tools/generate_interfaces.py:216 | The substituted `arg_names` text is empty for no parameters and is the one name for a single parameter. |
| Render.RenderParamRoundTrip | tools/generate_interfaces.py:200-207 | A rendered parameter reads back to the same parameter: its kind, its type or element type, its bound and its name, whenever the name has no space, bracket or comma. |
| Render.ArgsRoundTrip | tools/generate_interfaces.py:197-216 | The whole `args` text reads back to the parameter list, including the empty list from the empty text. |
| Render.NamesRoundTrip | tools/generate_interfaces.py:198-216 | For at least one parameter, splitting `arg_names` at its separators gives the names back in order, when no name contains a comma. The empty list is excluded because its text is the same as one unnamed parameter's; see `Render.UnnamedParameterAmbiguity`. |
| Render.UnnamedParameterAmbiguity | tools/generate_interfaces.py:207-216 | One unnamed parameter gives the same `arg_names` text as no parameters, but a different `args` text. |
| Render.FixedArrayExample | tools/generate_interfaces.py:202-205 | `double buf[4]` renders as `double buf[4]`, and its name entry is `buf`. |
| Render.IncompleteArrayExample | tools/generate_interfaces.py:200-201 | `char path[]` renders as `char path[]`. |
| Decimal.ParseNatToString | tools/generate_interfaces.py:202-205 | A printed bound or count reads back as the same number. |
| Decimal.NatToStringInjective | tools/generate_interfaces.py:285 | Distinct numbers print as distinct numerals. |
| Emitter.MacroAgreement | tools/generate_interfaces.py:135-145 | The macro and the typedef have the same text after their macro keyword. Both carry `(name, R, `, `(args), (arg_names)` and the function name. |
| Emitter.VirtualAgreement | tools/generate_interfaces.py:147-149 | The virtual declaration carries the declarator `name(args)`, preceded by the return type and a space, and names the function. |
| Emitter.WrapperAgreement | tools/generate_interfaces.py:151-156 | The wrapper's head line is `R NS::name(args)`. It carries the declarator `name(args)`, forwards `(arg_names)` and names the function. |
| Emitter.FragmentAgreement | tools/generate_interfaces.py:210-262 | All five fragments of one function embed the same name. The macro and the typedef embed the same `(args), (arg_names)`. The virtual declaration and the wrapper embed the same `name(args)`. The wrapper forwards the same `arg_names`. The macro and the typedef open with `(name, R, `, the virtual declaration carries `R name(args)`, and the wrapper carries `R NS::name(args)`, all with the same return type `R`. |
| Emitter.NoParameterFragments | tools/generate_interfaces.py:147-149 | A function without parameters has the virtual declaration `virtual R F();`, macros carrying `(), ()`, and a wrapper carrying `F()`. |
| Documents.ImplementationEmbeds | tools/generate_interfaces.py:47-94 | The implementation document holds the macro, binding and wrapper blocks verbatim, and a `count_<name>` function that returns the printed count. |
| Documents.InterfaceEmbeds | tools/generate_interfaces.py:96-133 | The interface document holds the virtual and typedef blocks verbatim, and the include guard `#ifndef BRAHMA_<NS>_H`. |
| Text.Upper | tools/generate_interfaces.py:182 | Upper-casing keeps the length, leaves no lower-case letter, maps each lower-case letter to its capital, and leaves every other character unchanged. |
| Generator.Hdf5Namespace | tools/generate_interfaces.py:182 | The HDF5 rule's namespace token is `HDF5`. |
| Generator.GenerateFragments | tools/generate_interfaces.py:184-262 | After the loop the five lists are parallel and as long as the filtered declarations. Their i-th entries are the five fragments of the i-th kept function, and the lists equal the declarative `Emitted`. |
| Generator.CountIsMatchedFunctions | tools/generate_interfaces.py:270-292 | The count equals the number of kept functions and the number of selected positions. The implementation's `count_<name>` returns a numeral that reads back as that number. |
| Generator.EveryMatchIsEmitted | tools/generate_interfaces.py:264-290 | Every kept function's virtual declaration and typedef are in the interface document. Its macro, binding and wrapper are in the implementation document. |
| Generator.NoMatchesGiveSkeletons | tools/generate_interfaces.py:264-292 | With no kept function the count is 0 and every aggregate block of both documents is empty. |
| Generator.OpenScenario | tools/generate_interfaces.py:190-262 | A header with `hid_t H5Fopen(const char *filename, unsigned flags)` under the HDF5 rule yields exactly one macro, binding and virtual declaration, each with its exact text, and a count of 1. |
| Decls.Selected | tools/generate_interfaces.py:191-193 | Definition, no contract: a function declaration whose spelling contains the prefix. |
| Text.Join | tools/generate_interfaces.py:215-216 | Definition, no contract: Python's `sep.join`. Its partner is `Text.SplitJoin`, and `Text.JoinOfNonEmptyParts` and `Text.JoinLength` state its emptiness and length. |
| Text.SplitJoin | tools/generate_interfaces.py:215-216 | Splitting a `", "`-joined list of comma-free parts gives the parts back. |
| Text.Concat | tools/generate_interfaces.py:270-271 | Definition, no contract: Python's `"".join`. `Text.ConcatAppend` and `Text.ConcatContainsPart` state its order and that every part occurs in it. |
| Text.ConcatContainsPart | tools/generate_interfaces.py:283-286 | Every part of a `"".join` occurs in the joined text. |
| Render.RenderParam | tools/generate_interfaces.py:200-207 | Definition, no contract: one `args` entry by the parameter's type kind. Its partner is `Render.ParseParam`, through `Render.RenderParamRoundTrip`. |
| Emitter.MacroFragment | tools/generate_interfaces.py:135-137 | Definition, no contract: the macro template with its five values substituted. |
| Emitter.BindingFragment | tools/generate_interfaces.py:139-141 | Definition, no contract: the binding template with the function name substituted. |
| Emitter.TypedefFragment | tools/generate_interfaces.py:143-145 | Definition, no contract: the typedef template with its five values substituted. |
| Emitter.VirtualFragment | tools/generate_interfaces.py:147-149 | Definition, no contract: the virtual template with the return type, the name and `args` substituted. |
| Emitter.WrapperFragment | tools/generate_interfaces.py:151-156 | Definition, no contract: the wrapper template with its five values substituted. |
| Emitter.Emit | tools/generate_interfaces.py:210-262 | Definition, no contract: the five fragments of one kept function, from one rendering of its arguments. `Emitter.FragmentAgreement` states what they share. |
| Documents.ImplementationDocument | tools/generate_interfaces.py:47-94 | Definition, no contract: the implementation template with its values substituted, as the `"".join` of its pieces. |
| Documents.InterfaceDocument | tools/generate_interfaces.py:96-133 | Definition, no contract: the interface template with its values substituted, as the `"".join` of its pieces. |
| Generator.Namespace | tools/generate_interfaces.py:182 | Definition, no contract: the interface name upper-cased with `Text.Upper`. |
| Generator.Emitted | tools/generate_interfaces.py:184-262 | Definition, no contract: the five lists written entry by entry from the filtered declarations. It is the reference that `Generator.GenerateFragments` is proved equal to. |
| Generator.Assemble | tools/generate_interfaces.py:264-290 | Definition, no contract: both documents from the five joined lists, with the count `len(macros)`. |
| Generator.Generate | tools/generate_interfaces.py:175-292 | Definition, no contract: one run of one rule over the parsed declarations. `Generator.CountIsMatchedFunctions`, `Generator.EveryMatchIsEmitted` and `Generator.NoMatchesGiveSkeletons` state what it produces. |

## Left out

- Command-line parsing, setting the libclang library path and creating the index (lines 8-22, 159) are not modelled. They are glue around foreign libraries.
- Parsing the header and walking the cursors (lines 178, 190, 199) are not modelled either. Their result is the input `seq<Decl>`, in the order the parser reports the declarations.
- Verbose printing in `print_function` (lines 25-44) and the progress messages (lines 176, 292) are console output. The count they report is modelled as `GeneratedModule.count`.
- Output paths, file writing and the `clang-format` pass (lines 167-169, 180-181, 264, 277, 294-299) are I/O and process spawning. The model ends at the two document strings.
- The timestamp (line 172) is a clock reading. It is a string parameter of `Generate`.
- The C++ behaviour of the generated text, such as the lazy singleton and `set_instance` throwing (lines 69-88), is not modelled. That text is kept as literal strings only.
- Text.Upper: covers the ASCII letters only, whereas Python's `str.upper` also maps non-ASCII letters. The rule names in this repository are ASCII.
- Render.RenderParamRoundTrip, Render.ArgsRoundTrip and Render.NamesRoundTrip: the read-back needs names without spaces, brackets or commas, and types without commas. A C parameter name always meets the name condition. A type such as a function pointer whose spelling contains a comma is outside this round trip.
