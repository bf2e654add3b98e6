/**
  The two documents the generator writes for one interface: the header
  with the abstract class and the gotcha typedefs, and the implementation
  with the gotcha macros, the binding installer, the count function, the
  lazy singleton accessors and the wrappers. Each document is the template
  text cut at its placeholders, with the substituted values in between.
  The generated C++ is fixed text here; what it does when compiled is not
  part of this model.
 */
module Documents {
  import opened Text

  // The literal text of the implementation template between its placeholders.
  const ImplementationBanner := "\n///\n/// This file is generated by tools/generate_interfaces.py\n/// Generated on: "
  const BeforeImplementationInclude := "\n///\n\n#include <brahma/interface/"
  const BeforeImplementationFlag := ".h>\n#include <stdexcept>\n\n#ifdef BRAHMA_ENABLE_"
  const BeforeMacros := "\n\n"
  const BeforeUpdateName := "\n                                   \nint update_"
  const BeforeBindings := "(gotcha_binding_t *&bindings, size_t &binding_index) {\n    "
  const BeforeCountFunction := "\n    return 0;\n}\n                                   \n"
  const CountFunctionHead := "size_t count_"
  const CountFunctionReturn := "() {\n    return "
  const CountFunctionTail := ";\n}"
  const BeforeInstanceType := "\n                                   \nnamespace brahma {\n    std::shared_ptr<"
  const BeforeInstanceOwner := "> "
  const BeforeGetterType := "::my_instance = nullptr;\n                                   \n    std::shared_ptr<"
  const BeforeGetterOwner := "> "
  const BeforeLoggedName := "::get_instance() {\n        if (my_instance == nullptr) {\n            BRAHMA_LOG_INFO(\""
  const BeforeCreatedType := " class not intercepted but used\", \"\");\n            my_instance = std::make_shared<"
  const BeforeSetterOwner := ">();\n        }\n        return my_instance;\n    }\n                                   \n    int "
  const BeforeSetterType := "::set_instance(std::shared_ptr<"
  const BeforeErrorName := "> instance_i) {\n        if (instance_i != nullptr) {\n            my_instance = instance_i;\n            return 0;\n        } else {\n            BRAHMA_LOG_ERROR(\"%s instance_i is not set\", \""
  const BeforeWrappers := "\");\n            throw std::runtime_error(\"instance_i is not set\");\n        }\n    }\n \n    "
  const BeforeImplementationEndif := "\n}\n\n#endif // BRAHMA_ENABLE_"
  const ImplementationEnd := "\n"

  /** The implementation template, cut at its placeholders; `count` is the count already printed. */
  function ImplementationPieces(name: string, ns: string, macros: string, bindings: string,
                                count: string, wrappers: string, timestamp: string): seq<string>
  {
    [
      ImplementationBanner,
      timestamp,
      BeforeImplementationInclude,
      name,
      BeforeImplementationFlag,
      ns,
      BeforeMacros,
      macros,
      BeforeUpdateName,
      name,
      BeforeBindings,
      bindings,
      BeforeCountFunction,
      CountFunctionHead,
      name,
      CountFunctionReturn,
      count,
      CountFunctionTail,
      BeforeInstanceType,
      ns,
      BeforeInstanceOwner,
      ns,
      BeforeGetterType,
      ns,
      BeforeGetterOwner,
      ns,
      BeforeLoggedName,
      ns,
      BeforeCreatedType,
      ns,
      BeforeSetterOwner,
      ns,
      BeforeSetterType,
      ns,
      BeforeErrorName,
      ns,
      BeforeWrappers,
      wrappers,
      BeforeImplementationEndif,
      ns,
      ImplementationEnd
    ]
  }

  // Positions of the substituted blocks in the piece list; the embedding
  // lemmas below fail to verify if any of them points at another piece.
  const MacrosAt := 7
  const BindingsAt := 11
  const CountFunctionAt := 13
  const WrappersAt := 37

  function ImplementationDocument(name: string, ns: string, macros: string, bindings: string,
                                  count: string, wrappers: string, timestamp: string): string
  {
    Concat(ImplementationPieces(name, ns, macros, bindings, count, wrappers, timestamp))
  }

  // The literal text of the interface template between its placeholders.
  const InterfaceBanner := "\n///\n/// This file is generated by tools/generate_interfaces.py\n/// Generated on: "
  const AfterInterfaceBanner := "\n///\n\n"
  const GuardHead := "#ifndef BRAHMA_"
  const GuardTail := "_H\n"
  const DefineHead := "#define BRAHMA_"
  const BeforeInterfaceFlag := "_H\n#include <brahma/brahma_config.hpp>\n#ifdef BRAHMA_ENABLE_"
  const BeforeHeaderFile := "\n#include <brahma/interceptor.h>\n#include <brahma/interface/interface.h>\n#include <stdexcept>\n#include <"
  const BeforeClassName := ">\n\nnamespace brahma {\n    class "
  const BeforeMemberType := " : public Interface {\n        private:\n            static std::shared_ptr<"
  const BeforeConstructor := "> my_instance;\n                             \n        public:\n            "
  const BeforeDestructor := "() : Interface() {};\n            \n            virtual ~"
  const BeforeAccessorType := "() {};\n\n            static std::shared_ptr<"
  const BeforeSetterParameterType := "> get_instance();\n                             \n            static int set_instance(std::shared_ptr<"
  const BeforeVirtuals := "> instance_i);\n                              \n            "
  const BeforeTypedefs := "\n    };\n}\n\n"
  const BeforeInterfaceEndif := "\n\n#endif // BRAHMA_ENABLE_"
  const BeforeGuardEndif := "\n#endif // BRAHMA_"
  const InterfaceEnd := "_H\n        "

  /** The interface template, cut at its placeholders. */
  function InterfacePieces(headerFile: string, ns: string, virtuals: string, typedefs: string,
                           timestamp: string): seq<string>
  {
    [
      InterfaceBanner,
      timestamp,
      AfterInterfaceBanner,
      GuardHead,
      ns,
      GuardTail,
      DefineHead,
      ns,
      BeforeInterfaceFlag,
      ns,
      BeforeHeaderFile,
      headerFile,
      BeforeClassName,
      ns,
      BeforeMemberType,
      ns,
      BeforeConstructor,
      ns,
      BeforeDestructor,
      ns,
      BeforeAccessorType,
      ns,
      BeforeSetterParameterType,
      ns,
      BeforeVirtuals,
      virtuals,
      BeforeTypedefs,
      typedefs,
      BeforeInterfaceEndif,
      ns,
      BeforeGuardEndif,
      ns,
      InterfaceEnd
    ]
  }

  // Positions of the include guard and the two blocks in the piece list.
  const GuardAt := 3
  const VirtualsAt := 25
  const TypedefsAt := 27

  function InterfaceDocument(headerFile: string, ns: string, virtuals: string, typedefs: string,
                             timestamp: string): string
  {
    Concat(InterfacePieces(headerFile, ns, virtuals, typedefs, timestamp))
  }

  /** The generated `count_<name>` function, returning the printed count. */
  function CountFunction(name: string, count: string): string
  {
    CountFunctionHead + name + CountFunctionReturn + count + CountFunctionTail
  }

  /** The include guard the interface opens with. */
  function IncludeGuard(ns: string): string
  {
    GuardHead + ns + GuardTail
  }

  /**
    The implementation document holds the macro block, the binding block
    and the wrapper block verbatim, and a `count_<name>` function returning
    the printed count.
   */
  lemma ImplementationEmbeds(name: string, ns: string, macros: string, bindings: string,
                             count: string, wrappers: string, timestamp: string)
    ensures var doc := ImplementationDocument(name, ns, macros, bindings, count, wrappers, timestamp);
      Contains(doc, macros) && Contains(doc, bindings) && Contains(doc, wrappers)
      && Contains(doc, CountFunction(name, count))
  {
    var ps := ImplementationPieces(name, ns, macros, bindings, count, wrappers, timestamp);
    ConcatContainsPart(ps, MacrosAt);
    ConcatContainsPart(ps, BindingsAt);
    ConcatContainsPart(ps, WrappersAt);
    ConcatContainsFive(ps, CountFunctionAt, CountFunctionHead, name, CountFunctionReturn, count, CountFunctionTail);
  }

  /**
    The interface document opens with the include guard named after the
    namespace token and holds the virtual block and the typedef block verbatim.
   */
  lemma InterfaceEmbeds(headerFile: string, ns: string, virtuals: string, typedefs: string, timestamp: string)
    ensures var doc := InterfaceDocument(headerFile, ns, virtuals, typedefs, timestamp);
      Contains(doc, virtuals) && Contains(doc, typedefs) && Contains(doc, IncludeGuard(ns))
  {
    var ps := InterfacePieces(headerFile, ns, virtuals, typedefs, timestamp);
    ConcatContainsPart(ps, VirtualsAt);
    ConcatContainsPart(ps, TypedefsAt);
    ConcatContainsThree(ps, GuardAt, GuardHead, ns, GuardTail);
  }
}
