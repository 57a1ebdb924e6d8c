/**
 * Declarations as the Clang indexer reports them, and
 * `TranslationUnit.obfuscatableSymbols(skipImport:)`: the names a
 * translation unit declares, with method selectors decomposed into their
 * `:`-separated pieces.
 */
module Symbols {
  import opened Text

  /** The cursor kinds the tool tells apart; every other kind is `OtherDecl`. */
  datatype DeclKind =
    | InterfaceDecl | ProtocolDecl
    | ClassMethodDecl | InstanceMethodDecl
    | PropertyDecl | IvarDecl
    | FunctionDecl | VarDecl
    | OtherDecl
  {
    predicate IsMethod() {
      ClassMethodDecl? || InstanceMethodDecl?
    }
  }

  /** One indexed declaration: its cursor kind, its description and its file. */
  datatype Decl = Decl(kind: DeclKind, descriptor: string, file: string)

  /**
   * One run of `indexTranslationUnit`: the declarations reported to the
   * callback, and whether the run ended with an error after them.
   */
  datatype IndexRun = IndexRun(reported: seq<Decl>, failed: bool)

  /** The names one declaration contributes: the selector pieces of a method, else the descriptor. */
  function DeclSymbols(d: Decl): seq<string> {
    if d.kind.IsMethod() then Components(d.descriptor, ':') else [d.descriptor]
  }

  /** The elements of a list of names, as a set. */
  function SetOf(ps: seq<string>): (r: set<string>)
    ensures forall x :: x in r <==> x in ps
    decreases |ps|
  {
    if ps == [] then {}
    else
      var init := ps[..|ps| - 1];
      assert forall x :: x in ps <==> x in init || x == ps[|ps| - 1];
      SetOf(init) + {ps[|ps| - 1]}
  }

  /** Every name the declarations contribute, before the empty name is removed. */
  function Collected(decls: seq<Decl>): set<string>
    decreases |decls|
  {
    if decls == [] then {}
    else Collected(decls[..|decls| - 1]) + SetOf(DeclSymbols(decls[|decls| - 1]))
  }

  /** A name is collected exactly when some declaration contributes it. */
  lemma {:induction false} CollectedMembers(decls: seq<Decl>, x: string)
    ensures x in Collected(decls) <==> exists i :: 0 <= i < |decls| && x in DeclSymbols(decls[i])
    decreases |decls|
  {
    if decls != [] {
      var init := decls[..|decls| - 1];
      CollectedMembers(init, x);
      assert forall i :: 0 <= i < |init| ==> init[i] == decls[i];
    }
  }

  /**
   * `obfuscatableSymbols(skipImport:)`: the indexer callback inserts the
   * names of each reported declaration; an indexing error is only logged,
   * so the names collected until then are returned; `""` is removed last.
   * `skipImport` is never read.
   */
  method ObfuscatableSymbols(run: IndexRun, skipImport: bool) returns (symbols: set<string>)
    ensures symbols == Collected(run.reported) - {""}
  {
    symbols := {};
    var decls := run.reported;
    for k := 0 to |decls|
      invariant symbols == Collected(decls[..k])
    {
      var d := decls[k];
      CollectedStep(decls, k);
      if d.kind.IsMethod() {
        var pieces := Components(d.descriptor, ':');
        for j := 0 to |pieces|
          invariant symbols == Collected(decls[..k]) + SetOf(pieces[..j])
        {
          SetOfStep(pieces, j);
          symbols := symbols + {pieces[j]};
        }
        assert pieces[..|pieces|] == pieces;
      } else {
        symbols := symbols + {d.descriptor};
      }
    }
    assert decls[..|decls|] == decls;
    symbols := symbols - {""};
  }

  lemma CollectedStep(decls: seq<Decl>, k: nat)
    requires k < |decls|
    ensures Collected(decls[..k + 1]) == Collected(decls[..k]) + SetOf(DeclSymbols(decls[k]))
    ensures !decls[k].kind.IsMethod() ==> SetOf(DeclSymbols(decls[k])) == {decls[k].descriptor}
  {
    assert decls[..k + 1][..k] == decls[..k];
  }

  lemma SetOfStep(ps: seq<string>, j: nat)
    requires j < |ps|
    ensures SetOf(ps[..j + 1]) == SetOf(ps[..j]) + {ps[j]}
  {
    assert ps[..j + 1][..j] == ps[..j];
  }

  /** `x` is a selector piece of method `d`, or the whole descriptor of a non-method `d`. */
  predicate Contributes(d: Decl, x: string) {
    if d.kind.IsMethod() then x in Components(d.descriptor, ':') else x == d.descriptor
  }

  /**
   * What the result holds: every `:`-piece of a method's descriptor and
   * every other declaration's whole descriptor, except the empty string,
   * and nothing else.
   */
  lemma SymbolsOfDeclarations(decls: seq<Decl>, x: string)
    ensures x in Collected(decls) - {""} <==>
      x != "" && exists i :: 0 <= i < |decls| && Contributes(decls[i], x)
  {
    CollectedMembers(decls, x);
  }

  /** Every piece of a method descriptor is a collected name, empty pieces included. */
  lemma MethodPiecesCollected(decls: seq<Decl>, i: nat, piece: string)
    requires i < |decls| && decls[i].kind.IsMethod()
    requires piece in Components(decls[i].descriptor, ':')
    ensures piece in Collected(decls)
  {
    CollectedMembers(decls, piece);
  }

  /** A descriptor without `:` is collected whole whatever its kind. */
  lemma PlainDescriptorCollected(decls: seq<Decl>, i: nat)
    requires i < |decls| && ':' !in decls[i].descriptor
    ensures decls[i].descriptor in Collected(decls)
  {
    CollectedMembers(decls, decls[i].descriptor);
  }
}
