/**
 * The compiler plugins the language server derives from the proc-macro
 * server's list of defined macros (plugins/mod.rs), and the code generation
 * of an inline proc macro (plugins/inline.rs).  Syntax nodes, token streams
 * and generated code are plain strings here.
 */
module Plugins {
  import opened Wrappers

  /** The answer to the `DefinedMacros` request. */
  datatype DefinedMacros = DefinedMacros(
    attributes: seq<string>,
    derives: seq<string>,
    executables: seq<string>,
    inlineMacros: seq<string>)

  /** Severity as reported by a proc macro (`cairo_lang_macro::Severity`). */
  datatype MacroSeverity = MacroError | MacroWarning

  /** A diagnostic emitted by a proc macro. */
  datatype MacroDiagnostic = MacroDiagnostic(message: string, severity: MacroSeverity)

  /** What the proc-macro server returns for one expansion. */
  datatype ProcMacroResult = ProcMacroResult(tokenStream: string, diagnostics: seq<MacroDiagnostic>)

  /** Severity of a compiler diagnostic (`cairo_lang_diagnostics::Severity`). */
  datatype Severity = Error | Warning

  /** Identity of a syntax node that diagnostics point at. */
  type SyntaxStablePtr = nat

  datatype PluginDiagnostic = PluginDiagnostic(stablePtr: SyntaxStablePtr, message: string, severity: Severity)

  /** The plugin registered for all attribute, derive and executable proc macros. */
  datatype ProcMacroPlugin = ProcMacroPlugin(
    definedAttributes: seq<string>,
    definedDerives: seq<string>,
    definedExecutableAttributes: seq<string>)
  {
    /** The attribute names the plugin claims: plain attributes, then executable ones. */
    function DeclaredAttributes(): (r: seq<string>)
      ensures |r| == |definedAttributes| + |definedExecutableAttributes|
      ensures r[..|definedAttributes|] == definedAttributes
      ensures r[|definedAttributes|..] == definedExecutableAttributes
      ensures forall name :: name in r <==> name in definedAttributes || name in definedExecutableAttributes
    {
      definedAttributes + definedExecutableAttributes
    }

    /** The derive names the plugin claims. */
    function DeclaredDerives(): (r: seq<string>)
      ensures r == definedDerives
    {
      definedDerives
    }
  }

  /** A macro plugin of the analysis database: a built-in one or the proc-macro one. */
  datatype MacroPlugin = StaticMacroPlugin(name: string) | ProcMacro(plugin: ProcMacroPlugin)

  /** An inline-macro plugin: a built-in one or the single proc-macro inline plugin instance. */
  datatype InlinePlugin = StaticInlinePlugin(name: string) | InlineProcMacroPlugin

  datatype PluginSuite = PluginSuite(plugins: seq<MacroPlugin>, inlineMacroPlugins: map<string, InlinePlugin>)

  /**
   * Builds the plugins for a proc-macro server: one macro plugin carrying the
   * defined attributes, derives and executables, and one inline-plugin entry
   * per inline macro name, all pointing at the same plugin.
   */
  method ProcMacroPluginSuite(defined: DefinedMacros) returns (suite: PluginSuite)
    ensures suite.plugins == [ProcMacro(ProcMacroPlugin(defined.attributes, defined.derives, defined.executables))]
    ensures forall name :: name in suite.inlineMacroPlugins <==> name in defined.inlineMacros
    ensures forall name :: name in suite.inlineMacroPlugins ==> suite.inlineMacroPlugins[name] == InlineProcMacroPlugin
  {
    suite := PluginSuite([], map[]);
    suite := suite.(plugins := suite.plugins + [ProcMacro(ProcMacroPlugin(defined.attributes, defined.derives, defined.executables))]);
    var i := 0;
    while i < |defined.inlineMacros|
      invariant 0 <= i <= |defined.inlineMacros|
      invariant suite.plugins == [ProcMacro(ProcMacroPlugin(defined.attributes, defined.derives, defined.executables))]
      invariant forall name :: name in suite.inlineMacroPlugins <==> name in defined.inlineMacros[..i]
      invariant forall name :: name in suite.inlineMacroPlugins ==> suite.inlineMacroPlugins[name] == InlineProcMacroPlugin
    {
      suite := suite.(inlineMacroPlugins := suite.inlineMacroPlugins[defined.inlineMacros[i] := InlineProcMacroPlugin]);
      assert defined.inlineMacros[..i + 1] == defined.inlineMacros[..i] + [defined.inlineMacros[i]];
      i := i + 1;
    }
    assert defined.inlineMacros[..i] == defined.inlineMacros;
  }

  function CairoSeverity(severity: MacroSeverity): Severity
  {
    match severity
    case MacroError => Error
    case MacroWarning => Warning
  }

  /** Converts proc-macro diagnostics into compiler diagnostics that all point at `stablePtr`. */
  function IntoCairoDiagnostics(diagnostics: seq<MacroDiagnostic>, stablePtr: SyntaxStablePtr): (r: seq<PluginDiagnostic>)
    ensures |r| == |diagnostics|
    ensures forall i :: 0 <= i < |r| ==>
      && r[i].stablePtr == stablePtr
      && r[i].message == diagnostics[i].message
      && (diagnostics[i].severity == MacroError ==> r[i].severity == Error)
      && (diagnostics[i].severity == MacroWarning ==> r[i].severity == Warning)
  {
    if diagnostics == [] then []
    else
      [PluginDiagnostic(stablePtr, diagnostics[0].message, CairoSeverity(diagnostics[0].severity))]
      + IntoCairoDiagnostics(diagnostics[1..], stablePtr)
  }

  /** Where a generated span came from; the inline plugin emits none. */
  datatype CodeMapping = CodeMapping(origin: nat, start: nat, end: nat)

  /** Auxiliary data a plugin may attach to a generated file; the inline plugin attaches none. */
  datatype AuxData = AuxData(tag: string)

  datatype PluginGeneratedFile = PluginGeneratedFile(
    name: string,
    content: string,
    codeMappings: seq<CodeMapping>,
    auxData: Option<AuxData>)

  datatype InlinePluginResult = InlinePluginResult(code: Option<PluginGeneratedFile>, diagnostics: seq<PluginDiagnostic>)

  /** An inline macro call site: its source text (the token stream built from the node) and its stable pointer. */
  datatype InlineMacroSyntax = InlineMacroSyntax(text: string, stablePtr: SyntaxStablePtr)

  const InlineFileName: string := "inline_proc_macro"

  /**
   * Expands an inline macro through `expand`, which is called once, on the
   * token stream of the call site.  An empty expansion removes the call; any
   * other expansion becomes a generated file holding the expanded text.
   */
  function InlineMacroGenerateCode(syntax: InlineMacroSyntax, expand: string -> ProcMacroResult): (r: InlinePluginResult)
    ensures var expanded := expand(syntax.text);
      && r.diagnostics == IntoCairoDiagnostics(expanded.diagnostics, syntax.stablePtr)
      && (r.code.None? <==> expanded.tokenStream == [])
      && (r.code.Some? ==>
            && r.code.value.name == InlineFileName
            && r.code.value.content == expanded.tokenStream
            && r.code.value.codeMappings == []
            && r.code.value.auxData == None)
  {
    var result := expand(syntax.text);
    var diagnostics := IntoCairoDiagnostics(result.diagnostics, syntax.stablePtr);
    if result.tokenStream == [] then
      InlinePluginResult(None, diagnostics)
    else
      InlinePluginResult(Some(PluginGeneratedFile(InlineFileName, result.tokenStream, [], None)), diagnostics)
  }
}
