/**
 * `HOObf.analyse()`: the blacklist, the xib names, the classification of
 * every indexed declaration into the `macros` table and the `properties`
 * and `setMethods` exclusion sets, and the sorted, filtered emission of
 * `#ifndef/#define/#endif` blocks into an output stream.
 *
 * Clang is replaced by the declarations each file reports (`Symbols`), the
 * project by its public headers and its other files, the random source by
 * the `Generator`'s oracle and the output stream by `OutputSink`.
 */
module Obf {
  import opened Wrappers
  import opened Text
  import opened Symbols
  import opened StringUtils
  import opened StringExtensions

  /** A project file: its path, and its indexed declarations when Clang could parse it. */
  datatype SourceFile = SourceFile(path: string, unit: Option<IndexRun>)

  /** `specifiedSymbols`: names shared with third-party code. */
  const SpecifiedSymbols: set<string> := {"appSecret"}

  /** `specifiedDirs`: vendored directories whose files are not obfuscated. */
  const SpecifiedDirs: seq<string> := ["ThirdLibrary", "Pods"]

  /** `xibFiles`: xib names declared in Main.storyboard. */
  const XibFiles: set<string> := {"ViewController"}

  /** The column width macro names are padded to. */
  const KeyWidth: nat := 30

  /** The default `len` of `randomIdentifier`: five words per identifier. */
  const IdentifierLen: nat := 4

  // ---------------------------------------------------------------------
  // Blacklist

  /** The symbols of the public headers Clang could parse. */
  function HeaderSymbols(headers: seq<SourceFile>): set<string>
    decreases |headers|
  {
    if headers == [] then {}
    else
      var f := headers[|headers| - 1];
      HeaderSymbols(headers[..|headers| - 1])
        + (if f.unit.Some? then Collected(f.unit.value.reported) - {""} else {})
  }

  /** The system symbols, `specifiedSymbols` and every public-header symbol. */
  function Blacklist(systemSymbols: set<string>, headers: seq<SourceFile>): set<string> {
    systemSymbols + SpecifiedSymbols + HeaderSymbols(headers)
  }

  /** `x` is declared in the parsed public header `headers[i]`. */
  predicate DeclaredInHeader(headers: seq<SourceFile>, i: int, x: string) {
    0 <= i < |headers| && headers[i].unit.Some?
    && exists j :: 0 <= j < |headers[i].unit.value.reported| && Contributes(headers[i].unit.value.reported[j], x)
  }

  lemma {:induction false} HeaderSymbolsMembers(headers: seq<SourceFile>, x: string)
    ensures x in HeaderSymbols(headers) <==> x != "" && exists i :: DeclaredInHeader(headers, i, x)
    decreases |headers|
  {
    if headers != [] {
      var init := headers[..|headers| - 1];
      var f := headers[|headers| - 1];
      var last := |headers| - 1;
      HeaderSymbolsMembers(init, x);
      assert forall i :: DeclaredInHeader(init, i, x) <==> 0 <= i < |init| && DeclaredInHeader(headers, i, x);
      assert (exists i :: DeclaredInHeader(headers, i, x))
         <==> (exists i :: DeclaredInHeader(init, i, x)) || DeclaredInHeader(headers, last, x);
      if f.unit.Some? {
        var rep := f.unit.value.reported;
        SymbolsOfDeclarations(rep, x);
        assert DeclaredInHeader(headers, last, x) <==> exists j :: 0 <= j < |rep| && Contributes(rep[j], x);
      }
    }
  }

  /**
   * A name is blacklisted exactly when it is a system symbol, a specified
   * symbol, or a non-empty name a parsed public header declares.
   */
  lemma BlacklistMembers(systemSymbols: set<string>, headers: seq<SourceFile>, x: string)
    ensures x in Blacklist(systemSymbols, headers) <==>
      x in systemSymbols || x == "appSecret" || (x != "" && exists i :: DeclaredInHeader(headers, i, x))
  {
    HeaderSymbolsMembers(headers, x);
  }

  // ---------------------------------------------------------------------
  // Xib detection and skipped files

  /** `path.components(separatedBy: "/").last`. */
  function LastComponent(path: string): string {
    var cs := Components(path, '/');
    cs[|cs| - 1]
  }

  /** The file name's `.`-separated parts. */
  function NameParts(path: string): seq<string> {
    Components(LastComponent(path), '.')
  }

  /** The base name of a file named exactly `base.xib`. */
  function XibBase(path: string): Option<string> {
    var parts := NameParts(path);
    if |parts| == 2 && parts[1] == "xib" then Some(parts[0]) else None
  }

  /** The xib name a file contributes: `x` when Clang could parse it and it is named `x.xib`. */
  function XibOf(f: SourceFile): Option<string> {
    if f.unit.Some? then XibBase(f.path) else None
  }

  /** The names `name` gives the files, leaving out the nils. */
  function NamesOf(files: seq<SourceFile>, name: SourceFile -> Option<string>): set<string>
    decreases |files|
  {
    if files == [] then {}
    else
      NamesOf(files[..|files| - 1], name)
        + match name(files[|files| - 1]) case Some(x) => {x} case None => {}
  }

  lemma {:induction false} NamesOfMembers(files: seq<SourceFile>, name: SourceFile -> Option<string>, x: string)
    ensures x in NamesOf(files, name) <==> exists i :: 0 <= i < |files| && name(files[i]) == Some(x)
    decreases |files|
  {
    if files != [] {
      var init := files[..|files| - 1];
      NamesOfMembers(init, name, x);
      assert forall i :: 0 <= i < |init| ==> init[i] == files[i];
    }
  }

  /** The xib base names among the files Clang could parse. */
  function DetectedXibs(files: seq<SourceFile>): set<string> {
    NamesOf(files, XibOf)
  }

  function Xibs(files: seq<SourceFile>): set<string> {
    DetectedXibs(files) + XibFiles
  }

  /** `xibs` holds `ViewController` and the base name of every parsed `*.xib` file, and nothing else. */
  lemma XibsMembers(files: seq<SourceFile>, x: string)
    ensures x in Xibs(files) <==> x == "ViewController" || exists i :: 0 <= i < |files| && XibOf(files[i]) == Some(x)
  {
    NamesOfMembers(files, XibOf, x);
  }

  /** The file's name is two `.`-parts whose first is a xib name (`Foo.m` next to `Foo.xib`). */
  predicate NamedAfterXib(path: string, xibs: set<string>) {
    var parts := NameParts(path);
    |parts| == 2 && parts[0] in xibs
  }

  /** The path runs through a vendored directory: it contains `/ThirdLibrary/` or `/Pods/`. */
  predicate InVendoredDir(path: string) {
    exists d :: d in SpecifiedDirs && Contains(path, "/" + d + "/")
  }

  /** A file contributes nothing when Clang cannot parse it, it belongs to a xib, or it is vendored. */
  predicate Skipped(f: SourceFile, xibs: set<string>) {
    f.unit.None? || NamedAfterXib(f.path, xibs) || InVendoredDir(f.path)
  }

  /** The loop over `specifiedDirs`, stopping at the first match. */
  method IsVendored(path: string) returns (b: bool)
    ensures b <==> InVendoredDir(path)
  {
    b := false;
    for i := 0 to |SpecifiedDirs|
      invariant !b
      invariant forall j :: 0 <= j < i ==> !Contains(path, "/" + SpecifiedDirs[j] + "/")
    {
      if Contains(path, "/" + SpecifiedDirs[i] + "/") {
        b := true;
        break;
      }
    }
  }

  /**
   * A source file that has a parsed `.xib` companion of the same base name
   * is skipped, and so is the `.xib` file itself.
   */
  lemma XibCompanionSkipped(files: seq<SourceFile>, i: nat, f: SourceFile)
    requires i < |files| && XibOf(files[i]).Some?
    requires |NameParts(f.path)| == 2 && NameParts(f.path)[0] == XibOf(files[i]).value
    ensures Skipped(f, Xibs(files))
  {
    XibsMembers(files, XibOf(files[i]).value);
  }

  // ---------------------------------------------------------------------
  // Classification of declarations

  /** The three tables, and how many numbers the generator has drawn. */
  datatype Tables = Tables(macros: map<string, string>, properties: set<string>, setMethods: set<string>, drawn: nat)

  const NoTables := Tables(map[], {}, {}, 0)

  /** `u` extends `t`: every key keeps its value, the sets only grow. */
  predicate Grows(t: Tables, u: Tables) {
    (forall k :: k in t.macros ==> k in u.macros && u.macros[k] == t.macros[k])
    && t.properties <= u.properties && t.setMethods <= u.setMethods && t.drawn <= u.drawn
  }

  /**
   * The callback's guards: a non-empty descriptor, not blacklisted, and,
   * when it holds `:`, no blacklisted `:`-piece.
   */
  predicate Admissible(desc: string, blacklist: set<string>) {
    |desc| > 0 && desc !in blacklist
    && !(':' in desc && exists p :: p in Components(desc, ':') && p in blacklist)
  }

  /** `macros[key] = prefix + randomIdentifier(upper:)`, only when `key` is absent. */
  function NewMacro(t: Tables, key: string, prefix: string, upper: bool, words: seq<string>, draw: nat -> nat): (r: Tables)
    requires AllNonEmpty(words)
    ensures key in r.macros
  {
    if key in t.macros then t
    else
      t.(macros := t.macros[key := prefix + Identifier(words, draw, t.drawn, IdentifierLen, upper)],
         drawn := t.drawn + DrawsUsed(words, IdentifierLen))
  }

  /** A new macro only adds its key, and only when the key was absent. */
  lemma NewMacroGrows(t: Tables, key: string, prefix: string, upper: bool, words: seq<string>, draw: nat -> nat)
    requires AllNonEmpty(words)
    ensures var r := NewMacro(t, key, prefix, upper, words, draw);
      && Grows(t, r) && r.properties == t.properties && r.setMethods == t.setMethods
      && r.macros.Keys == t.macros.Keys + {key}
  {
  }

  /**
   * One `:`-piece of a method: a `set…` piece records its lower-cased stem
   * as a setter, any other absent piece gets an identifier (prefixed with
   * `initWith` for an `initWith…` piece).
   */
  function ClassifyPiece(t: Tables, piece: string, words: seq<string>, draw: nat -> nat): Tables
    requires AllNonEmpty(words)
  {
    if HasPrefix(piece, "set") then t.(setMethods := t.setMethods + {Lower(piece[3..])})
    else if HasPrefix(piece, "initWith") then NewMacro(t, piece, "initWith", true, words, draw)
    else NewMacro(t, piece, "", false, words, draw)
  }

  /** The pieces in order. */
  function ClassifyPieces(t: Tables, pieces: seq<string>, words: seq<string>, draw: nat -> nat): Tables
    requires AllNonEmpty(words)
    decreases |pieces|
  {
    if pieces == [] then t
    else ClassifyPiece(ClassifyPieces(t, pieces[..|pieces| - 1], words, draw), pieces[|pieces| - 1], words, draw)
  }

  /** Over a method's pieces the tables only grow, and a new key is one of the pieces, never a `set…` piece. */
  lemma {:induction false} PiecesGrow(t: Tables, pieces: seq<string>, words: seq<string>, draw: nat -> nat)
    requires AllNonEmpty(words)
    ensures var r := ClassifyPieces(t, pieces, words, draw);
      && Grows(t, r) && r.properties == t.properties
      && forall k :: k in r.macros && k !in t.macros ==> k in pieces && !HasPrefix(k, "set")
    decreases |pieces|
  {
    if pieces != [] {
      var init := pieces[..|pieces| - 1];
      var piece := pieces[|pieces| - 1];
      PiecesGrow(t, init, words, draw);
      var mid := ClassifyPieces(t, init, words, draw);
      if !HasPrefix(piece, "set") {
        NewMacroGrows(mid, piece, if HasPrefix(piece, "initWith") then "initWith" else "", HasPrefix(piece, "initWith"), words, draw);
      }
      assert forall k :: k in init ==> k in pieces;
    }
  }

  /**
   * The indexer callback for one declaration: an inadmissible declaration
   * changes nothing; otherwise its cursor kind decides.
   */
  function ClassifyDecl(t: Tables, d: Decl, blacklist: set<string>, words: seq<string>, draw: nat -> nat): Tables
    requires AllNonEmpty(words)
  {
    var desc := d.descriptor;
    if !Admissible(desc, blacklist) then t
    else
      match d.kind
      case InterfaceDecl | ProtocolDecl => NewMacro(t, desc, "", true, words, draw)
      case ClassMethodDecl | InstanceMethodDecl => ClassifyPieces(t, Components(desc, ':'), words, draw)
      case PropertyDecl | IvarDecl | VarDecl => t.(properties := t.properties + {desc})
      case FunctionDecl => NewMacro(t, desc, "", false, words, draw)
      case OtherDecl => t
  }

  /** One declaration only adds keys it names, and none of them is blacklisted. */
  lemma DeclGrows(t: Tables, d: Decl, blacklist: set<string>, words: seq<string>, draw: nat -> nat)
    requires AllNonEmpty(words)
    ensures var r := ClassifyDecl(t, d, blacklist, words, draw);
      && Grows(t, r)
      && forall k :: k in r.macros && k !in t.macros ==> k in DeclSymbols(d) && k !in blacklist
  {
    var desc := d.descriptor;
    if Admissible(desc, blacklist) {
      match d.kind
      case InterfaceDecl | ProtocolDecl => NewMacroGrows(t, desc, "", true, words, draw);
      case FunctionDecl => NewMacroGrows(t, desc, "", false, words, draw);
      case ClassMethodDecl | InstanceMethodDecl =>
        PiecesGrow(t, Components(desc, ':'), words, draw);
        assert forall p :: p in Components(desc, ':') ==> p !in blacklist;
      case _ =>
    }
  }

  /** The declarations a file reports, in order. */
  function ClassifyDecls(t: Tables, decls: seq<Decl>, blacklist: set<string>, words: seq<string>, draw: nat -> nat): Tables
    requires AllNonEmpty(words)
    decreases |decls|
  {
    if decls == [] then t
    else ClassifyDecl(ClassifyDecls(t, decls[..|decls| - 1], blacklist, words, draw), decls[|decls| - 1], blacklist, words, draw)
  }

  lemma {:induction false} DeclsGrow(t: Tables, decls: seq<Decl>, blacklist: set<string>, words: seq<string>, draw: nat -> nat)
    requires AllNonEmpty(words)
    ensures var r := ClassifyDecls(t, decls, blacklist, words, draw);
      Grows(t, r) && forall k :: k in r.macros && k !in t.macros ==> k !in blacklist
    decreases |decls|
  {
    if decls != [] {
      var init := decls[..|decls| - 1];
      DeclsGrow(t, init, blacklist, words, draw);
      DeclGrows(ClassifyDecls(t, init, blacklist, words, draw), decls[|decls| - 1], blacklist, words, draw);
    }
  }

  /** One file: skipped files change nothing; an indexing error keeps what was reported. */
  function ClassifyFile(t: Tables, f: SourceFile, xibs: set<string>, blacklist: set<string>, words: seq<string>, draw: nat -> nat): Tables
    requires AllNonEmpty(words)
  {
    if Skipped(f, xibs) then t else ClassifyDecls(t, f.unit.value.reported, blacklist, words, draw)
  }

  /** The per-file loop. */
  function ClassifyFiles(t: Tables, files: seq<SourceFile>, xibs: set<string>, blacklist: set<string>, words: seq<string>, draw: nat -> nat): Tables
    requires AllNonEmpty(words)
    decreases |files|
  {
    if files == [] then t
    else ClassifyFile(ClassifyFiles(t, files[..|files| - 1], xibs, blacklist, words, draw), files[|files| - 1], xibs, blacklist, words, draw)
  }

  /**
   * Over the whole per-file loop every key keeps the value of its first
   * insertion, the sets only grow, and no key added is blacklisted.
   */
  lemma {:induction false} FilesGrow(t: Tables, files: seq<SourceFile>, xibs: set<string>, blacklist: set<string>, words: seq<string>, draw: nat -> nat)
    requires AllNonEmpty(words)
    ensures var r := ClassifyFiles(t, files, xibs, blacklist, words, draw);
      Grows(t, r) && forall k :: k in r.macros && k !in t.macros ==> k !in blacklist
    decreases |files|
  {
    if files != [] {
      var init := files[..|files| - 1];
      var f := files[|files| - 1];
      FilesGrow(t, init, xibs, blacklist, words, draw);
      if !Skipped(f, xibs) {
        DeclsGrow(ClassifyFiles(t, init, xibs, blacklist, words, draw), f.unit.value.reported, blacklist, words, draw);
      }
    }
  }

  /** The tables of a whole run, before `""` is removed. */
  function Classified(systemSymbols: set<string>, headers: seq<SourceFile>, files: seq<SourceFile>, dictionary: seq<string>, draw: nat -> nat): Tables {
    ClassifyFiles(NoTables, files, Xibs(files), Blacklist(systemSymbols, headers), NonEmptyWords(dictionary), draw)
  }

  /** The rules for one method piece. */
  lemma MethodPieceRules(t: Tables, piece: string, words: seq<string>, draw: nat -> nat)
    requires AllNonEmpty(words)
    ensures var r := ClassifyPiece(t, piece, words, draw);
      && (HasPrefix(piece, "set") ==>
            r.macros == t.macros && r.setMethods == t.setMethods + {Lower(piece[3..])})
      && (!HasPrefix(piece, "set") && piece in t.macros ==> r == t)
      && (!HasPrefix(piece, "set") && piece !in t.macros && HasPrefix(piece, "initWith") ==>
            piece in r.macros && HasPrefix(r.macros[piece], "initWith")
            && r.macros[piece][8..] == Identifier(words, draw, t.drawn, IdentifierLen, true))
      && (!HasPrefix(piece, "set") && piece !in t.macros && !HasPrefix(piece, "initWith") ==>
            piece in r.macros && r.macros[piece] == Identifier(words, draw, t.drawn, IdentifierLen, false))
  {
    var r := ClassifyPiece(t, piece, words, draw);
    if !HasPrefix(piece, "set") && piece !in t.macros && HasPrefix(piece, "initWith") {
      var id := Identifier(words, draw, t.drawn, IdentifierLen, true);
      assert r.macros[piece] == "initWith" + id;
      assert ("initWith" + id)[8..] == id;
    }
  }

  /**
   * The rules for one admissible declaration: classes and protocols get an
   * upper-case identifier and functions a lower-case one when absent;
   * properties, ivars and variables only enter `properties`; methods go
   * piece by piece; other kinds change nothing.
   */
  lemma DeclarationRules(t: Tables, d: Decl, blacklist: set<string>, words: seq<string>, draw: nat -> nat)
    requires AllNonEmpty(words) && Admissible(d.descriptor, blacklist)
    ensures var r := ClassifyDecl(t, d, blacklist, words, draw); var desc := d.descriptor;
      && ((d.kind.InterfaceDecl? || d.kind.ProtocolDecl?) && desc !in t.macros ==>
            desc in r.macros && r.macros[desc] == Identifier(words, draw, t.drawn, IdentifierLen, true))
      && (d.kind.FunctionDecl? && desc !in t.macros ==>
            desc in r.macros && r.macros[desc] == Identifier(words, draw, t.drawn, IdentifierLen, false))
      && (d.kind.PropertyDecl? || d.kind.IvarDecl? || d.kind.VarDecl? ==>
            r.macros == t.macros && r.properties == t.properties + {desc} && r.setMethods == t.setMethods)
      && (d.kind.IsMethod() ==> r == ClassifyPieces(t, Components(desc, ':'), words, draw))
      && (d.kind.OtherDecl? ==> r == t)
  {
    if d.kind.InterfaceDecl? || d.kind.ProtocolDecl? || d.kind.FunctionDecl? {
      assert "" + Identifier(words, draw, t.drawn, IdentifierLen, d.kind != FunctionDecl)
          == Identifier(words, draw, t.drawn, IdentifierLen, d.kind != FunctionDecl);
    }
  }

  /** The declarations the callback does not return early on. */
  function AdmissibleOnly(decls: seq<Decl>, blacklist: set<string>): (r: seq<Decl>)
    ensures forall d :: d in r <==> d in decls && Admissible(d.descriptor, blacklist)
    decreases |decls|
  {
    if decls == [] then []
    else
      var init := decls[..|decls| - 1];
      var d := decls[|decls| - 1];
      assert forall x :: x in decls <==> x in init || x == d;
      AdmissibleOnly(init, blacklist) + (if Admissible(d.descriptor, blacklist) then [d] else [])
  }

  /** Declarations failing a guard contribute nothing: dropping them gives the same tables. */
  lemma {:induction false} InadmissibleIgnored(t: Tables, decls: seq<Decl>, blacklist: set<string>, words: seq<string>, draw: nat -> nat)
    requires AllNonEmpty(words)
    ensures ClassifyDecls(t, decls, blacklist, words, draw)
         == ClassifyDecls(t, AdmissibleOnly(decls, blacklist), blacklist, words, draw)
    decreases |decls|
  {
    if decls != [] {
      var init := decls[..|decls| - 1];
      var d := decls[|decls| - 1];
      InadmissibleIgnored(t, init, blacklist, words, draw);
      var a := AdmissibleOnly(init, blacklist);
      var mid := ClassifyDecls(t, init, blacklist, words, draw);
      assert mid == ClassifyDecls(t, a, blacklist, words, draw);
      assert ClassifyDecls(t, decls, blacklist, words, draw) == ClassifyDecl(mid, d, blacklist, words, draw);
      if Admissible(d.descriptor, blacklist) {
        var a' := a + [d];
        assert AdmissibleOnly(decls, blacklist) == a';
        assert a'[..|a'| - 1] == a && a'[|a'| - 1] == d;
        assert ClassifyDecls(t, a', blacklist, words, draw) == ClassifyDecl(mid, d, blacklist, words, draw);
      } else {
        assert AdmissibleOnly(decls, blacklist) == a + [] == a;
        assert ClassifyDecl(mid, d, blacklist, words, draw) == mid;
      }
    }
  }

  /** The files the per-file loop does not skip. */
  function ProcessedOnly(files: seq<SourceFile>, xibs: set<string>): (r: seq<SourceFile>)
    ensures forall f :: f in r <==> f in files && !Skipped(f, xibs)
    decreases |files|
  {
    if files == [] then []
    else
      var init := files[..|files| - 1];
      var f := files[|files| - 1];
      assert forall x :: x in files <==> x in init || x == f;
      ProcessedOnly(init, xibs) + (if Skipped(f, xibs) then [] else [f])
  }

  /** Skipped files contribute nothing: dropping them gives the same tables. */
  lemma {:induction false} SkippedFilesIgnored(t: Tables, files: seq<SourceFile>, xibs: set<string>, blacklist: set<string>, words: seq<string>, draw: nat -> nat)
    requires AllNonEmpty(words)
    ensures ClassifyFiles(t, files, xibs, blacklist, words, draw)
         == ClassifyFiles(t, ProcessedOnly(files, xibs), xibs, blacklist, words, draw)
    decreases |files|
  {
    if files != [] {
      var init := files[..|files| - 1];
      var f := files[|files| - 1];
      SkippedFilesIgnored(t, init, xibs, blacklist, words, draw);
      var p := ProcessedOnly(init, xibs);
      var mid := ClassifyFiles(t, init, xibs, blacklist, words, draw);
      assert mid == ClassifyFiles(t, p, xibs, blacklist, words, draw);
      assert ClassifyFiles(t, files, xibs, blacklist, words, draw) == ClassifyFile(mid, f, xibs, blacklist, words, draw);
      if !Skipped(f, xibs) {
        var p' := p + [f];
        assert ProcessedOnly(files, xibs) == p';
        assert p'[..|p'| - 1] == p && p'[|p'| - 1] == f;
        assert ClassifyFiles(t, p', xibs, blacklist, words, draw) == ClassifyFile(mid, f, xibs, blacklist, words, draw);
      } else {
        assert ProcessedOnly(files, xibs) == p + [] == p;
      }
    }
  }

  // ---------------------------------------------------------------------
  // Emission

  /** The three exclusion sets the emission loop checks. */
  datatype Exclusions = Exclusions(properties: set<string>, setMethods: set<string>, xibs: set<string>)

  /** A key is written unless it is a property name, a setter stem (case-insensitively) or a xib name. */
  predicate Allowed(k: string, ex: Exclusions) {
    k !in ex.properties && Lower(k) !in ex.setMethods && k !in ex.xibs
  }

  /** The `#ifndef/#define/#endif` block for one macro. */
  function Block(key: string, value: string): string {
    var paddedKey := Padded(key, KeyWidth, ' ');
    "#ifndef " + paddedKey + "\n" + "#define " + paddedKey + " " + value + "\n" + "#endif\n\r"
  }

  function Spaces(n: nat): string {
    seq(n, _ => ' ')
  }

  lemma {:induction false} TrimTrailingSpaces(k: string, n: nat)
    requires k == [] || k[|k| - 1] != ' '
    ensures TrimTrailing(k + Spaces(n), ' ') == k
  {
    if n == 0 {
      assert k + Spaces(0) == k;
    } else {
      var s := k + Spaces(n);
      assert s[..|s| - 1] == k + Spaces(n - 1);
      TrimTrailingSpaces(k, n - 1);
    }
  }

  /** The macro name a block declares: the text after `#ifndef ` up to the line end, without the padding. */
  function MacroName(b: string): string {
    if HasPrefix(b, "#ifndef ") then TrimTrailing(Components(b[8..], '\n')[0], ' ') else ""
  }

  /** The text before the first line break, when `p` holds none. */
  lemma FirstLine(p: string, rest: string)
    requires '\n' !in p
    ensures Components(p + "\n" + rest, '\n')[0] == p
  {
    var s := p + "\n" + rest;
    assert s[|p|] == '\n' && s[..|p|] == p;
    IndexOfUnique(s, '\n', |p|);
  }

  lemma PaddedWithSpaces(key: string)
    ensures var p := Padded(key, KeyWidth, ' '); |p| >= |key| && p == key + Spaces(|p| - |key|)
  {
    var p := Padded(key, KeyWidth, ' ');
    var q := key + Spaces(|p| - |key|);
    assert |q| == |p|;
    forall k | 0 <= k < |p| ensures p[k] == q[k] {
      if k < |key| {
        assert p[k] == p[..|key|][k];
      }
    }
  }

  /** The block opens with `#ifndef ` and the padded key up to the first line break. */
  lemma BlockOpening(key: string, value: string)
    ensures var p := Padded(key, KeyWidth, ' '); var b := Block(key, value);
      HasPrefix(b, "#ifndef ") && b[8..] == p + "\n" + ("#define " + p + " " + value + "\n" + "#endif\n\r")
  {
    var p := Padded(key, KeyWidth, ' ');
    var rest := "#define " + p + " " + value + "\n" + "#endif\n\r";
    assert Block(key, value) == "#ifndef " + (p + "\n" + rest);
  }

  /** The key can be read back from its block, whatever its length. */
  lemma BlockNamesKey(key: string, value: string)
    requires '\n' !in key && (key == [] || key[|key| - 1] != ' ')
    ensures MacroName(Block(key, value)) == key
  {
    var p := Padded(key, KeyWidth, ' ');
    PaddedWithSpaces(key);
    TrimTrailingSpaces(key, |p| - |key|);
    BlockOpening(key, value);
    FirstLine(p, "#define " + p + " " + value + "\n" + "#endif\n\r");
  }

  /** A block is the padded key twice, the value, and 27 characters of markup. */
  lemma BlockLength(key: string, value: string)
    ensures |Block(key, value)| == 2 * (if |key| < KeyWidth then KeyWidth else |key|) + |value| + 27
  {
  }

  /** The emission loop: stop for good when the stream has no space, skip excluded keys. */
  function Emitted(w: seq<string>, keys: seq<string>, m: map<string, string>, ex: Exclusions, hasSpace: seq<string> -> bool): seq<string>
    requires forall k :: k in keys ==> k in m
    decreases |keys|
  {
    if keys == [] || !hasSpace(w) then w
    else
      var k := keys[0];
      assert forall x :: x in keys[1..] ==> x in keys;
      Emitted(if Allowed(k, ex) then w + [Block(k, m[k])] else w, keys[1..], m, ex, hasSpace)
  }

  /** The blocks of the allowed keys, in order. */
  function Blocks(keys: seq<string>, m: map<string, string>, ex: Exclusions): seq<string>
    requires forall k :: k in keys ==> k in m
    decreases |keys|
  {
    if keys == [] then []
    else
      assert forall x :: x in keys[1..] ==> x in keys;
      (if Allowed(keys[0], ex) then [Block(keys[0], m[keys[0]])] else []) + Blocks(keys[1..], m, ex)
  }

  /** `hasSpace` held before each of the first `j` keys. */
  predicate SpaceBefore(w: seq<string>, keys: seq<string>, m: map<string, string>, ex: Exclusions, hasSpace: seq<string> -> bool, j: nat)
    requires j <= |keys| && forall k :: k in keys ==> k in m
  {
    forall i :: 0 <= i < j ==> PrefixBlocksFit(w, keys, m, ex, hasSpace, i)
  }

  predicate PrefixBlocksFit(w: seq<string>, keys: seq<string>, m: map<string, string>, ex: Exclusions, hasSpace: seq<string> -> bool, i: nat)
    requires i <= |keys| && forall k :: k in keys ==> k in m
  {
    assert forall x :: x in keys[..i] ==> x in keys;
    hasSpace(w + Blocks(keys[..i], m, ex))
  }

  /**
   * What the loop writes: the blocks of the allowed keys among the first
   * `j` keys, where `j` is the first position at which the stream had no
   * space (the space check comes before the exclusion checks), or all keys.
   */
  lemma {:induction false} EmittedPrefix(w: seq<string>, keys: seq<string>, m: map<string, string>, ex: Exclusions, hasSpace: seq<string> -> bool)
    requires forall k :: k in keys ==> k in m
    ensures exists j: nat ::
      && j <= |keys| && SpaceBefore(w, keys, m, ex, hasSpace, j)
      && (assert forall x :: x in keys[..j] ==> x in keys;
          Emitted(w, keys, m, ex, hasSpace) == w + Blocks(keys[..j], m, ex))
      && (j == |keys| || !PrefixBlocksFit(w, keys, m, ex, hasSpace, j))
    decreases |keys|
  {
    if keys == [] || !hasSpace(w) {
      assert keys[..0] == [];
      assert Emitted(w, keys, m, ex, hasSpace) == w + Blocks(keys[..0], m, ex);
      assert !hasSpace(w) ==> !PrefixBlocksFit(w, keys, m, ex, hasSpace, 0);
      assert SpaceBefore(w, keys, m, ex, hasSpace, 0);
    } else {
      var k := keys[0];
      var rest := keys[1..];
      assert forall x :: x in rest ==> x in keys;
      var first := if Allowed(k, ex) then [Block(k, m[k])] else [];
      var w' := w + first;
      assert w' == if Allowed(k, ex) then w + [Block(k, m[k])] else w;
      assert Emitted(w, keys, m, ex, hasSpace) == Emitted(w', rest, m, ex, hasSpace);
      EmittedPrefix(w', rest, m, ex, hasSpace);
      var j': nat :| j' <= |rest| && SpaceBefore(w', rest, m, ex, hasSpace, j')
        && Emitted(w', rest, m, ex, hasSpace) == w' + Blocks(rest[..j'], m, ex)
        && (j' == |rest| || !PrefixBlocksFit(w', rest, m, ex, hasSpace, j'));
      var j := j' + 1;
      assert SpaceBefore(w, keys, m, ex, hasSpace, j) by {
        forall i | 0 <= i < j ensures PrefixBlocksFit(w, keys, m, ex, hasSpace, i) {
          if i == 0 {
            assert keys[..0] == [];
            assert w + Blocks(keys[..0], m, ex) == w;
          } else {
            assert PrefixBlocksFit(w', rest, m, ex, hasSpace, i - 1);
            BlocksShift(w, keys, m, ex, i);
          }
        }
      }
      BlocksShift(w, keys, m, ex, j);
      if j' < |rest| {
        assert !PrefixBlocksFit(w', rest, m, ex, hasSpace, j');
      }
    }
  }

  /** The blocks of the first `i` keys are the first key's block, then those of the next `i - 1`. */
  lemma BlocksShift(w: seq<string>, keys: seq<string>, m: map<string, string>, ex: Exclusions, i: nat)
    requires 0 < i <= |keys| && forall k :: k in keys ==> k in m
    ensures forall x :: x in keys[..i] ==> x in keys
    ensures forall x :: x in keys[1..][..i - 1] ==> x in keys
    ensures var k := keys[0];
      w + Blocks(keys[..i], m, ex)
      == (if Allowed(k, ex) then w + [Block(k, m[k])] else w) + Blocks(keys[1..][..i - 1], m, ex)
  {
    assert forall x :: x in keys[..i] ==> x in keys;
    assert forall x :: x in keys[1..][..i - 1] ==> x in keys;
    var ks := keys[..i];
    assert ks[0] == keys[0] && ks[1..] == keys[1..][..i - 1];
    var k := keys[0];
    var b := Blocks(keys[1..][..i - 1], m, ex);
    assert Blocks(ks, m, ex) == (if Allowed(k, ex) then [Block(k, m[k])] else []) + b;
    if Allowed(k, ex) {
      assert w + ([Block(k, m[k])] + b) == (w + [Block(k, m[k])]) + b;
    } else {
      assert [] + b == b;
    }
  }

  /** A stream that never runs out of space receives the blocks of every allowed key. */
  lemma EmittedAllWithSpace(w: seq<string>, keys: seq<string>, m: map<string, string>, ex: Exclusions, hasSpace: seq<string> -> bool)
    requires forall k :: k in keys ==> k in m
    requires forall s :: hasSpace(s)
    ensures Emitted(w, keys, m, ex, hasSpace) == w + Blocks(keys, m, ex)
  {
    EmittedPrefix(w, keys, m, ex, hasSpace);
    var j: nat :| j <= |keys| && Emitted(w, keys, m, ex, hasSpace) == w + Blocks(keys[..j], m, ex)
      && (j == |keys| || !PrefixBlocksFit(w, keys, m, ex, hasSpace, j));
    assert keys[..|keys|] == keys;
  }

  /** Every block is the block of an allowed key, with that key's value. */
  lemma {:induction false} BlocksMembers(keys: seq<string>, m: map<string, string>, ex: Exclusions, b: string)
    requires forall k :: k in keys ==> k in m
    ensures b in Blocks(keys, m, ex) ==> exists k :: k in keys && Allowed(k, ex) && b == Block(k, m[k])
    decreases |keys|
  {
    if keys != [] {
      assert forall x :: x in keys[1..] ==> x in keys;
      BlocksMembers(keys[1..], m, ex, b);
    }
  }

  // ---------------------------------------------------------------------
  // Sorting the table

  /** The sort order: the keys compared with their leading and trailing `_` trimmed. */
  predicate TrimOrdered(a: string, b: string) {
    LexLe(TrimUnderscores(a), TrimUnderscores(b))
  }

  predicate SortedByTrimmedKey(keys: seq<string>) {
    forall i, j :: 0 <= i < j < |keys| ==> TrimOrdered(keys[i], keys[j])
  }

  predicate Distinct(keys: seq<string>) {
    forall i, j :: 0 <= i < j < |keys| ==> keys[i] != keys[j]
  }

  /** `keys` lists every key of `m` once, in the sort order. */
  predicate Enumerates(keys: seq<string>, m: map<string, string>) {
    (forall k :: k in keys ==> k in m) && (forall k :: k in m ==> k in keys) && Distinct(keys) && SortedByTrimmedKey(keys)
  }

  method InsertByTrimmedKey(keys: seq<string>, k: string) returns (r: seq<string>)
    requires SortedByTrimmedKey(keys) && Distinct(keys) && k !in keys
    ensures SortedByTrimmedKey(r) && Distinct(r)
    ensures forall x :: x in r <==> x in keys || x == k
  {
    var p := 0;
    while p < |keys| && TrimOrdered(keys[p], k)
      invariant 0 <= p <= |keys|
      invariant forall i :: 0 <= i < p ==> TrimOrdered(keys[i], k)
    {
      p := p + 1;
    }
    r := keys[..p] + [k] + keys[p..];
    InsertAt(keys, k, p);
  }

  /** Inserting `k` at the first key not ordered before it. */
  lemma InsertAt(keys: seq<string>, k: string, p: nat)
    requires SortedByTrimmedKey(keys) && Distinct(keys) && k !in keys && p <= |keys|
    requires forall i :: 0 <= i < p ==> TrimOrdered(keys[i], k)
    requires p == |keys| || !TrimOrdered(keys[p], k)
    ensures var r := keys[..p] + [k] + keys[p..];
      SortedByTrimmedKey(r) && Distinct(r) && forall x :: x in r <==> x in keys || x == k
  {
    if p < |keys| {
      LexTotal(TrimUnderscores(k), TrimUnderscores(keys[p]));
      OrderedBeforeRest(keys, k, p);
    }
    InsertKeepsOrder(keys, k, p);
    InsertMembers(keys, k, p);
  }

  lemma InsertMembers(keys: seq<string>, k: string, p: nat)
    requires p <= |keys|
    ensures forall x :: x in keys[..p] + [k] + keys[p..] <==> x in keys || x == k
  {
    var r := keys[..p] + [k] + keys[p..];
    forall x
      ensures x in r <==> x in keys || x == k
    {
      if x in keys {
        var i :| 0 <= i < |keys| && keys[i] == x;
        assert r[if i < p then i else i + 1] == x;
      }
      if x in r {
        var i :| 0 <= i < |r| && r[i] == x;
        assert i == p || keys[if i < p then i else i - 1] == x;
      }
    }
  }

  /** A key ordered before `keys[p]` is ordered before every later key too. */
  lemma OrderedBeforeRest(keys: seq<string>, k: string, p: nat)
    requires SortedByTrimmedKey(keys) && p < |keys| && TrimOrdered(k, keys[p])
    ensures forall i :: p <= i < |keys| ==> TrimOrdered(k, keys[i])
  {
    forall i | p < i < |keys|
      ensures TrimOrdered(k, keys[i])
    {
      LexLeTransitive(TrimUnderscores(k), TrimUnderscores(keys[p]), TrimUnderscores(keys[i]));
    }
  }

  /** Inserting `k` between the keys ordered before it and those ordered after it keeps the list sorted and distinct. */
  lemma InsertKeepsOrder(keys: seq<string>, k: string, p: nat)
    requires SortedByTrimmedKey(keys) && Distinct(keys) && k !in keys && p <= |keys|
    requires forall i :: 0 <= i < p ==> TrimOrdered(keys[i], k)
    requires forall i :: p <= i < |keys| ==> TrimOrdered(k, keys[i])
    ensures SortedByTrimmedKey(keys[..p] + [k] + keys[p..]) && Distinct(keys[..p] + [k] + keys[p..])
  {
    var r := keys[..p] + [k] + keys[p..];
    forall i, j | 0 <= i < j < |r|
      ensures TrimOrdered(r[i], r[j]) && r[i] != r[j]
    {
      InsertedPair(keys, k, p, i, j);
    }
  }

  /** Position `i` of the list with `k` inserted at `p`. */
  function InsertedAt(keys: seq<string>, k: string, p: nat, i: nat): (x: string)
    requires p <= |keys| && i <= |keys|
    ensures x == (keys[..p] + [k] + keys[p..])[i]
  {
    if i < p then keys[i] else if i == p then k else keys[i - 1]
  }

  /** One pair of positions of the list with `k` inserted at `p`. */
  lemma InsertedPair(keys: seq<string>, k: string, p: nat, i: nat, j: nat)
    requires SortedByTrimmedKey(keys) && Distinct(keys) && k !in keys && p <= |keys|
    requires forall i :: 0 <= i < p ==> TrimOrdered(keys[i], k)
    requires forall i :: p <= i < |keys| ==> TrimOrdered(k, keys[i])
    requires i < j <= |keys|
    ensures var r := keys[..p] + [k] + keys[p..];
      TrimOrdered(r[i], r[j]) && r[i] != r[j]
  {
    var ri := InsertedAt(keys, k, p, i);
    var rj := InsertedAt(keys, k, p, j);
    if i < p && j > p {
      LexLeTransitive(TrimUnderscores(keys[i]), TrimUnderscores(k), TrimUnderscores(keys[j - 1]));
    }
    if i == p {
      assert rj in keys;
    } else if j == p {
      assert ri in keys;
    }
  }

  /** `macros.sorted(by:)` on the trimmed keys; ties are ordered arbitrarily. */
  method SortedKeys(m: map<string, string>) returns (keys: seq<string>)
    ensures Enumerates(keys, m)
  {
    keys := [];
    var rest := m.Keys;
    while rest != {}
      invariant rest <= m.Keys
      invariant forall k :: k in keys <==> k in m && k !in rest
      invariant Distinct(keys) && SortedByTrimmedKey(keys)
      decreases |rest|
    {
      var k :| k in rest;
      keys := InsertByTrimmedKey(keys, k);
      rest := rest - {k};
    }
  }

  // ---------------------------------------------------------------------
  // The output stream and the engine

  /** The output stream: what has been written, and whether it has space after a given history. */
  class OutputSink {
    var written: seq<string>
    const hasSpace: seq<string> -> bool

    constructor (hasSpace: seq<string> -> bool)
      ensures written == [] && this.hasSpace == hasSpace
    {
      written := [];
      this.hasSpace := hasSpace;
    }

    /** `hasSpaceAvailable`. */
    method HasSpaceAvailable() returns (b: bool)
      ensures b == hasSpace(written)
    {
      b := hasSpace(written);
    }

    /** `write(_:maxLength:)` of one whole block. */
    method Write(block: string)
      modifies this
      ensures written == old(written) + [block]
    {
      written := written + [block];
    }
  }

  /** `HOObf`: the project's files, the output stream, and the tables `analyse()` builds. */
  class Obfuscator {
    const systemSymbols: set<string>
    const publicHeaders: seq<SourceFile>
    /** `sources ∪ internalHeaders`, in the order the set is iterated. */
    const files: seq<SourceFile>
    const sink: OutputSink

    var blacklist: set<string>
    var xibs: set<string>
    var macros: map<string, string>
    var properties: set<string>
    var setMethods: set<string>

    constructor (systemSymbols: set<string>, publicHeaders: seq<SourceFile>, files: seq<SourceFile>, sink: OutputSink)
      requires "" !in systemSymbols
      ensures this.systemSymbols == systemSymbols && this.publicHeaders == publicHeaders
      ensures this.files == files && this.sink == sink
      ensures blacklist == {} && xibs == {} && macros == map[] && properties == {} && setMethods == {}
    {
      this.systemSymbols := systemSymbols;
      this.publicHeaders := publicHeaders;
      this.files := files;
      this.sink := sink;
      blacklist := {};
      xibs := {};
      macros := map[];
      properties := {};
      setMethods := {};
    }

    function Snapshot(drawn: nat): Tables
      reads this
    {
      Tables(macros, properties, setMethods, drawn)
    }

    /** The blacklist: system symbols, specified symbols, then each parsed public header's symbols. */
    method BuildBlacklist()
      modifies this`blacklist
      ensures blacklist == Blacklist(systemSymbols, publicHeaders)
    {
      blacklist := systemSymbols + SpecifiedSymbols;
      for i := 0 to |publicHeaders|
        invariant blacklist == systemSymbols + SpecifiedSymbols + HeaderSymbols(publicHeaders[..i])
      {
        assert publicHeaders[..i + 1][..i] == publicHeaders[..i];
        var f := publicHeaders[i];
        if f.unit.Some? {
          var symbols := ObfuscatableSymbols(f.unit.value, true);
          blacklist := blacklist + symbols;
        }
      }
      assert publicHeaders[..|publicHeaders|] == publicHeaders;
    }

    /** The xib names: every parsed `base.xib` file's base, then `xibFiles`. */
    method DetectXibs()
      modifies this`xibs
      ensures xibs == Xibs(files)
    {
      xibs := {};
      for i := 0 to |files|
        invariant xibs == DetectedXibs(files[..i])
      {
        assert files[..i + 1][..i] == files[..i];
        var f := files[i];
        if f.unit.Some? {
          var parts := Components(LastComponent(f.path), '.');
          if |parts| == 2 && parts[1] == "xib" {
            xibs := xibs + {parts[0]};
          }
        }
      }
      assert files[..|files|] == files;
      xibs := xibs + XibFiles;
    }

    /** `macros[key] = prefix + randomIdentifier(upper:)` unless the key is present. */
    method Define(key: string, prefix: string, upper: bool, gen: Generator)
      requires gen.Valid()
      modifies this`macros, gen
      ensures Snapshot(gen.drawn) == NewMacro(old(Snapshot(gen.drawn)), key, prefix, upper, gen.words, gen.draw)
    {
      if key !in macros {
        var id := gen.RandomIdentifier(IdentifierLen, upper);
        macros := macros[key := prefix + id];
      }
    }

    /** One `:`-piece of a method descriptor. */
    method IndexPiece(piece: string, gen: Generator)
      requires gen.Valid()
      modifies this`macros, this`setMethods, gen
      ensures Snapshot(gen.drawn) == ClassifyPiece(old(Snapshot(gen.drawn)), piece, gen.words, gen.draw)
    {
      if HasPrefix(piece, "set") {
        setMethods := setMethods + {Lower(piece[3..])};
      } else if HasPrefix(piece, "initWith") {
        Define(piece, "initWith", true, gen);
      } else {
        Define(piece, "", false, gen);
      }
    }

    /** The pieces of a method descriptor, in order. */
    method IndexPieces(pieces: seq<string>, gen: Generator)
      requires gen.Valid()
      modifies this`macros, this`setMethods, gen
      ensures Snapshot(gen.drawn) == ClassifyPieces(old(Snapshot(gen.drawn)), pieces, gen.words, gen.draw)
    {
      ghost var t0 := Snapshot(gen.drawn);
      for i := 0 to |pieces|
        invariant Snapshot(gen.drawn) == ClassifyPieces(t0, pieces[..i], gen.words, gen.draw)
      {
        assert pieces[..i + 1][..i] == pieces[..i];
        IndexPiece(pieces[i], gen);
      }
      assert pieces[..|pieces|] == pieces;
    }

    /** The callback's guards, with the `:`-piece loop that does not stop at a match. */
    method IsAdmissible(desc: string) returns (ok: bool)
      ensures ok <==> Admissible(desc, blacklist)
    {
      if |desc| == 0 || desc in blacklist {
        return false;
      }
      var isInBlackList := false;
      if ':' in desc {
        var pieces := Components(desc, ':');
        for i := 0 to |pieces|
          invariant isInBlackList <==> exists j :: 0 <= j < i && pieces[j] in blacklist
        {
          if pieces[i] in blacklist {
            isInBlackList := true;
          }
        }
      }
      ok := !isInBlackList;
    }

    /** The indexer callback for one declaration. */
    method IndexDeclaration(d: Decl, gen: Generator)
      requires gen.Valid()
      modifies this`macros, this`properties, this`setMethods, gen
      ensures Snapshot(gen.drawn) == ClassifyDecl(old(Snapshot(gen.drawn)), d, blacklist, gen.words, gen.draw)
    {
      var desc := d.descriptor;
      var ok := IsAdmissible(desc);
      if !ok {
        return;
      }
      match d.kind
      case InterfaceDecl | ProtocolDecl =>
        Define(desc, "", true, gen);
      case ClassMethodDecl | InstanceMethodDecl =>
        IndexPieces(Components(desc, ':'), gen);
      case PropertyDecl | IvarDecl | VarDecl =>
        properties := properties + {desc};
      case FunctionDecl =>
        Define(desc, "", false, gen);
      case OtherDecl =>
    }

    /** One file of the per-file loop. */
    method IndexFile(f: SourceFile, gen: Generator)
      requires gen.Valid()
      modifies this`macros, this`properties, this`setMethods, gen
      ensures Snapshot(gen.drawn) == ClassifyFile(old(Snapshot(gen.drawn)), f, xibs, blacklist, gen.words, gen.draw)
    {
      if f.unit.None? {
        return;
      }
      var parts := Components(LastComponent(f.path), '.');
      if |parts| == 2 && parts[0] in xibs {
        return;
      }
      var vendored := IsVendored(f.path);
      if vendored {
        return;
      }
      var decls := f.unit.value.reported;
      ghost var t0 := Snapshot(gen.drawn);
      for i := 0 to |decls|
        invariant Snapshot(gen.drawn) == ClassifyDecls(t0, decls[..i], blacklist, gen.words, gen.draw)
      {
        assert decls[..i + 1][..i] == decls[..i];
        IndexDeclaration(decls[i], gen);
      }
      assert decls[..|decls|] == decls;
    }

    /** The per-file loop over `sources ∪ internalHeaders`. */
    method IndexFiles(gen: Generator)
      requires gen.Valid()
      modifies this`macros, this`properties, this`setMethods, gen
      ensures Snapshot(gen.drawn) == ClassifyFiles(old(Snapshot(gen.drawn)), files, xibs, blacklist, gen.words, gen.draw)
    {
      ghost var t0 := Snapshot(gen.drawn);
      for i := 0 to |files|
        invariant Snapshot(gen.drawn) == ClassifyFiles(t0, files[..i], xibs, blacklist, gen.words, gen.draw)
      {
        assert files[..i + 1][..i] == files[..i];
        IndexFile(files[i], gen);
      }
      assert files[..|files|] == files;
    }

    /** The emission loop over the sorted keys. */
    method Emit(keys: seq<string>)
      requires forall k :: k in keys ==> k in macros
      modifies sink
      ensures sink.written == Emitted(old(sink.written), keys, macros, Exclusions(properties, setMethods, xibs), sink.hasSpace)
    {
      var ex := Exclusions(properties, setMethods, xibs);
      ghost var w0 := sink.written;
      for i := 0 to |keys|
        invariant forall k :: k in keys[i..] ==> k in macros
        invariant Emitted(w0, keys, macros, ex, sink.hasSpace) == Emitted(sink.written, keys[i..], macros, ex, sink.hasSpace)
      {
        var space := sink.HasSpaceAvailable();
        if !space {
          break;
        }
        var key := keys[i];
        assert keys[i..][1..] == keys[i + 1..];
        if key in properties || Lower(key) in setMethods || key in xibs {
          continue;
        }
        var paddedKey := PadTo(key, KeyWidth, ' ');
        var block := "#ifndef " + paddedKey + "\n" + "#define " + paddedKey + " " + macros[key] + "\n" + "#endif\n\r";
        sink.Write(block);
      }
    }

    /**
     * `analyse()`: blacklist, xib names, classification of every file with
     * a fresh generator, removal of the `""` key, then emission in the
     * trimmed-key order.
     */
    method Analyse(dictionary: seq<string>, draw: nat -> nat)
      modifies this, sink
      ensures blacklist == Blacklist(systemSymbols, publicHeaders)
      ensures xibs == Xibs(files)
      ensures var t := Classified(systemSymbols, publicHeaders, files, dictionary, draw);
        macros == t.macros - {""} && properties == t.properties && setMethods == t.setMethods
      ensures exists keys ::
        && Enumerates(keys, macros)
        && sink.written == Emitted(old(sink.written), keys, macros, Exclusions(properties, setMethods, xibs), sink.hasSpace)
    {
      Prepare(dictionary, draw);
      Publish();
    }

    /** The tables `analyse()` builds before it writes anything. */
    method Prepare(dictionary: seq<string>, draw: nat -> nat)
      modifies this
      ensures blacklist == Blacklist(systemSymbols, publicHeaders)
      ensures xibs == Xibs(files)
      ensures var t := Classified(systemSymbols, publicHeaders, files, dictionary, draw);
        macros == t.macros - {""} && properties == t.properties && setMethods == t.setMethods
    {
      BuildBlacklist();
      DetectXibs();
      ClassifyAll(dictionary, draw);
      macros := macros - {""};
    }

    /** The keys in the trimmed-key order, each written while the stream has space. */
    method Publish()
      modifies sink
      ensures exists keys ::
        && Enumerates(keys, macros)
        && sink.written == Emitted(old(sink.written), keys, macros, Exclusions(properties, setMethods, xibs), sink.hasSpace)
    {
      var keys := SortedKeys(macros);
      Emit(keys);
    }

    /** Every file classified in turn, from empty tables, with a fresh generator. */
    method ClassifyAll(dictionary: seq<string>, draw: nat -> nat)
      requires blacklist == Blacklist(systemSymbols, publicHeaders) && xibs == Xibs(files)
      modifies this`macros, this`properties, this`setMethods
      ensures var t := Classified(systemSymbols, publicHeaders, files, dictionary, draw);
        macros == t.macros && properties == t.properties && setMethods == t.setMethods
    {
      var gen := new Generator(dictionary, draw);
      ghost var t := ClassifyFiles(NoTables, files, xibs, blacklist, gen.words, gen.draw);
      assert t == Classified(systemSymbols, publicHeaders, files, dictionary, draw);
      macros, properties, setMethods := map[], {}, {};
      assert Snapshot(gen.drawn) == NoTables;
      IndexFiles(gen);
      assert Snapshot(gen.drawn) == t;
    }
  }

  /**
   * The whole run: whatever order ties are sorted in and whenever the
   * stream fills up, everything written is the block of a non-empty,
   * non-blacklisted, non-excluded key with that key's value.
   */
  lemma EmittedKeysAreSafe(systemSymbols: set<string>, headers: seq<SourceFile>, files: seq<SourceFile>,
                           dictionary: seq<string>, draw: nat -> nat, keys: seq<string>,
                           w: seq<string>, hasSpace: seq<string> -> bool)
    requires Enumerates(keys, Classified(systemSymbols, headers, files, dictionary, draw).macros - {""})
    ensures var t := Classified(systemSymbols, headers, files, dictionary, draw);
      var m := t.macros - {""};
      var ex := Exclusions(t.properties, t.setMethods, Xibs(files));
      exists added ::
        && Emitted(w, keys, m, ex, hasSpace) == w + added
        && forall b :: b in added ==>
             exists k :: k in m && k != "" && k !in Blacklist(systemSymbols, headers) && Allowed(k, ex) && b == Block(k, m[k])
  {
    var t := Classified(systemSymbols, headers, files, dictionary, draw);
    var m := t.macros - {""};
    var ex := Exclusions(t.properties, t.setMethods, Xibs(files));
    var bl := Blacklist(systemSymbols, headers);
    FilesGrow(NoTables, files, Xibs(files), bl, NonEmptyWords(dictionary), draw);
    assert forall k :: k in m ==> k !in bl;
    EmittedPrefix(w, keys, m, ex, hasSpace);
    var j: nat :| j <= |keys|
      && (assert forall x :: x in keys[..j] ==> x in keys;
          Emitted(w, keys, m, ex, hasSpace) == w + Blocks(keys[..j], m, ex));
    assert forall x :: x in keys[..j] ==> x in keys;
    var added := Blocks(keys[..j], m, ex);
    forall b | b in added
      ensures exists k :: k in m && k != "" && k !in Blacklist(systemSymbols, headers) && Allowed(k, ex) && b == Block(k, m[k])
    {
      BlocksMembers(keys[..j], m, ex, b);
    }
  }
}
