/** Which of several declarations of the same symbol or extension the index keeps. */
module LatestDeclarations {
  import opened Collections
  import opened ImportGraph
  import opened Resolver
  import opened ResolverProperties

  // ---------------------------------------------------------------- within one file

  /** File `f` declares `name` at top level as a declaration of this kind. */
  ghost predicate DeclaresAs(f: File, kind: Kind, name: string) {
    f.File? &&
    match kind
    case ServiceKind => name in f.services
    case EnumKind => name in f.enums
    case MessageKind => name in f.messages
    case ExtensionKind => exists e :: e in f.extensions && e.name == name
  }

  /** The kind that wins: extensions come last in a file, before them messages, enums and services. */
  ghost function LatestKind(f: File, name: string): (kind: Kind)
    requires Declares(f, name)
    ensures DeclaresAs(f, kind, name)
  {
    if DeclaresAs(f, ExtensionKind, name) then ExtensionKind
    else if DeclaresAs(f, MessageKind, name) then MessageKind
    else if DeclaresAs(f, EnumKind, name) then EnumKind
    else ServiceKind
  }

  lemma {:induction false} LastService(f: File, k: nat, name: string)
    requires f.File? && k <= |f.services|
    ensures Last(ServiceLog(f, k), SymbolKey(name))
         == if name in f.services[..k] then Some(WriteSymbol(Symbol(ServiceKind, name, f))) else None
  {
    if k > 0 {
      LastService(f, k - 1, name);
      assert f.services[..k] == f.services[..k - 1] + [f.services[k - 1]];
    }
  }

  lemma {:induction false} LastEnum(f: File, k: nat, name: string)
    requires f.File? && k <= |f.enums|
    ensures Last(EnumLog(f, k), SymbolKey(name))
         == if name in f.enums[..k] then Some(WriteSymbol(Symbol(EnumKind, name, f))) else None
  {
    if k > 0 {
      LastEnum(f, k - 1, name);
      assert f.enums[..k] == f.enums[..k - 1] + [f.enums[k - 1]];
    }
  }

  lemma LastOfTwo(log: seq<Write>, w: Write, v: Write, k: Key)
    ensures Last(log + [w, v], k) == if Touches(v, k) then Some(v) else if Touches(w, k) then Some(w) else Last(log, k)
  {
    LastAppend(log, [w, v], k);
    assert [w, v][..1] == [w] && [w][..0] == [];
    assert Last([w], k) == if Touches(w, k) then Some(w) else None;
    assert Last([w, v], k) == if Touches(v, k) then Some(v) else Last([w], k);
  }

  lemma {:induction false} LastMessage(f: File, k: nat, name: string)
    requires f.File? && k <= |f.messages|
    ensures Last(MessageLog(f, k), SymbolKey(name))
         == if name in f.messages[..k] then Some(WriteSymbol(Symbol(MessageKind, name, f))) else None
  {
    hide Last;
    if k > 0 {
      LastMessage(f, k - 1, name);
      assert f.messages[..k] == f.messages[..k - 1] + [f.messages[k - 1]];
      LastOfTwo(MessageLog(f, k - 1), WriteSymbol(Symbol(MessageKind, f.messages[k - 1], f)), WriteMessage(f.messages[k - 1]), SymbolKey(name));
    } else {
      LastOfNone(SymbolKey(name));
    }
  }

  lemma LastOfNone(k: Key)
    ensures Last([], k) == None
  {
  }

  lemma {:induction false} LastExtensionSymbol(f: File, k: nat, name: string)
    requires f.File? && k <= |f.extensions|
    ensures Last(ExtensionLog(f, k), SymbolKey(name))
         == if exists e :: e in f.extensions[..k] && e.name == name then Some(WriteSymbol(Symbol(ExtensionKind, name, f))) else None
  {
    hide Last;
    if k > 0 {
      var e := f.extensions[k - 1];
      LastExtensionSymbol(f, k - 1, name);
      assert f.extensions[..k] == f.extensions[..k - 1] + [e];
      LastOfTwo(ExtensionLog(f, k - 1), WriteSymbol(Symbol(ExtensionKind, e.name, f)), WriteField(Field(e, f)), SymbolKey(name));
    } else {
      LastOfNone(SymbolKey(name));
    }
  }

  lemma LastSymbolOfFile(f: File, name: string)
    ensures Last(FileLog(f), SymbolKey(name))
         == if Declares(f, name) then Some(WriteSymbol(Symbol(LatestKind(f, name), name, f))) else None
  {
    hide Last, ServiceLog, EnumLog, MessageLog, ExtensionLog;
    var k := SymbolKey(name);
    LastOfOther([WriteFile(f)], k);
    if f.File? {
      var s, e := ServiceLog(f, |f.services|), EnumLog(f, |f.enums|);
      var m, x := MessageLog(f, |f.messages|), ExtensionLog(f, |f.extensions|);
      LastService(f, |f.services|, name);
      LastEnum(f, |f.enums|, name);
      LastMessage(f, |f.messages|, name);
      LastExtensionSymbol(f, |f.extensions|, name);
      assert f.services[..|f.services|] == f.services && f.enums[..|f.enums|] == f.enums;
      assert f.messages[..|f.messages|] == f.messages && f.extensions[..|f.extensions|] == f.extensions;
      LastAppend(s, e, k);
      LastAppend(s + e, m, k);
      LastAppend(s + e + m, x, k);
      LastAppend([WriteFile(f)], s + e + m + x, k);
    } else {
      assert FileLog(f) == [WriteFile(f)];
    }
  }

  lemma LastOfOther(log: seq<Write>, k: Key)
    requires forall w :: w in log ==> !Touches(w, k)
    ensures Last(log, k) == None
  {
    hide Last;
    LastIsLatest(log, k);
  }

  // ---------------------------------------------------------------- over all visits

  /** The latest visited file that declares the symbol. */
  ghost predicate IsLatestDeclaring(visits: seq<File>, f: File, name: string) {
    exists i :: 0 <= i < |visits| && visits[i] == f && Declares(f, name) && forall j :: i < j < |visits| ==> !Declares(visits[j], name)
  }

  lemma {:induction false} LastSymbol(visits: seq<File>, name: string)
    ensures var w := Last(Log(visits), SymbolKey(name));
            && (w.None? <==> forall f :: f in visits ==> !Declares(f, name))
            && (w.Some? ==> w.value.WriteSymbol? && IsLatestDeclaring(visits, w.value.symbol.parent, name)
                            && w.value.symbol == Symbol(LatestKind(w.value.symbol.parent, name), name, w.value.symbol.parent))
  {
    hide Last, FileLog, Declares, LatestKind;
    if visits == [] {
      LastOfNone(SymbolKey(name));
    } else {
      var n := |visits| - 1;
      var front, f := visits[..n], visits[n];
      assert visits == front + [f];
      LastSymbol(front, name);
      LastSymbolOfFile(f, name);
      LastAppend(Log(front), FileLog(f), SymbolKey(name));
      if Declares(f, name) {
        assert visits[n] == f;
      } else if g :| g in front && Declares(g, name) {
        var w := Last(Log(front), SymbolKey(name)).value;
        var i :| 0 <= i < n && front[i] == w.symbol.parent && Declares(w.symbol.parent, name)
                 && forall j :: i < j < n ==> !Declares(front[j], name);
        assert visits[i] == w.symbol.parent;
      }
    }
  }

  /** A symbol lookup returns the declaration in the latest visited file that declares it, and within
      that file the latest one in the order services, enums, messages, extensions. */
  lemma SymbolIsLatest(resolver: SimpleResolver, name: string)
    requires resolver.Valid()
    ensures var found := resolver.FindDescriptorByName(name);
            && (found.Ok? <==> exists f :: f in resolver.visits && Declares(f, name))
            && (found.Ok? ==> IsLatestDeclaring(resolver.visits, found.value.parent, name) && found.value.name == name
                              && found.value.kind == LatestKind(found.value.parent, name))
  {
    hide Apply, Last, Log, IsLatestDeclaring, LatestKind, Declares;
    IndexIsLastWrite(Log(resolver.visits), SymbolKey(name));
    LastSymbol(resolver.visits, name);
  }

  // ---------------------------------------------------------------- extensions

  /** The latest extension of the message with this number among the first `k` of the file. */
  ghost function LatestExtension(f: File, k: nat, message: string, number: int): Option<Extension>
    requires f.File? && k <= |f.extensions|
  {
    if k == 0 then None
    else if f.extensions[k - 1].extendee == message && f.extensions[k - 1].number == number then Some(f.extensions[k - 1])
    else LatestExtension(f, k - 1, message, number)
  }

  lemma {:induction false} LatestExtensionExactly(f: File, k: nat, message: string, number: int)
    requires f.File? && k <= |f.extensions|
    ensures var e := LatestExtension(f, k, message, number);
            && (e.None? <==> forall i :: 0 <= i < k ==> f.extensions[i].extendee != message || f.extensions[i].number != number)
            && (e.Some? ==> exists i :: 0 <= i < k && f.extensions[i] == e.value && e.value.extendee == message && e.value.number == number
                              && forall j :: i < j < k ==> f.extensions[j].extendee != message || f.extensions[j].number != number)
  {
    if k > 0 {
      LatestExtensionExactly(f, k - 1, message, number);
      assert f.extensions[k - 1].extendee == message && f.extensions[k - 1].number == number
             ==> LatestExtension(f, k, message, number) == Some(f.extensions[k - 1]);
    }
  }

  lemma {:induction false} LastField(f: File, k: nat, message: string, number: int)
    requires f.File? && k <= |f.extensions|
    ensures Last(ExtensionLog(f, k), FieldKey(message, number))
         == match LatestExtension(f, k, message, number) case None => None case Some(e) => Some(WriteField(Field(e, f)))
  {
    hide Last;
    if k > 0 {
      var e := f.extensions[k - 1];
      LastField(f, k - 1, message, number);
      LastOfTwo(ExtensionLog(f, k - 1), WriteSymbol(Symbol(ExtensionKind, e.name, f)), WriteField(Field(e, f)), FieldKey(message, number));
    } else {
      LastOfNone(FieldKey(message, number));
    }
  }

  ghost function LatestIn(f: File, message: string, number: int): Option<Extension> {
    if f.File? then LatestExtension(f, |f.extensions|, message, number) else None
  }

  lemma LastFieldOfFile(f: File, message: string, number: int)
    ensures Last(FileLog(f), FieldKey(message, number))
         == match LatestIn(f, message, number) case None => None case Some(e) => Some(WriteField(Field(e, f)))
  {
    hide Last, ServiceLog, EnumLog, MessageLog, ExtensionLog, LatestExtension;
    var k := FieldKey(message, number);
    LastOfOther([WriteFile(f)], k);
    if f.File? {
      var s, e := ServiceLog(f, |f.services|), EnumLog(f, |f.enums|);
      var m, x := MessageLog(f, |f.messages|), ExtensionLog(f, |f.extensions|);
      ServiceLogAt(f, |f.services|);
      EnumLogAt(f, |f.enums|);
      MessageLogAt(f, |f.messages|);
      LastOfOther(s, k);
      LastOfOther(e, k);
      LastOfOther(m, k);
      LastField(f, |f.extensions|, message, number);
      LastAppend(s, e, k);
      LastAppend(s + e, m, k);
      LastAppend(s + e + m, x, k);
      LastAppend([WriteFile(f)], s + e + m + x, k);
    } else {
      assert FileLog(f) == [WriteFile(f)];
    }
  }

  /** The latest visited file that extends the message with this number. */
  ghost predicate IsLatestExtending(visits: seq<File>, f: File, message: string, number: int) {
    exists i :: 0 <= i < |visits| && visits[i] == f && LatestIn(f, message, number).Some?
                && forall j :: i < j < |visits| ==> LatestIn(visits[j], message, number).None?
  }

  lemma {:induction false} LastFieldOfVisits(visits: seq<File>, message: string, number: int)
    ensures var w := Last(Log(visits), FieldKey(message, number));
            && (w.None? <==> forall f :: f in visits ==> LatestIn(f, message, number).None?)
            && (w.Some? ==> w.value.WriteField? && IsLatestExtending(visits, w.value.field.parent, message, number)
                            && LatestIn(w.value.field.parent, message, number) == Some(w.value.field.declaration))
  {
    hide Last, FileLog, LatestIn;
    var key := FieldKey(message, number);
    if visits == [] {
      LastOfNone(key);
    } else {
      var n := |visits| - 1;
      var front, f := visits[..n], visits[n];
      assert visits == front + [f];
      LastFieldOfVisits(front, message, number);
      LastFieldOfFile(f, message, number);
      LastAppend(Log(front), FileLog(f), key);
      if LatestIn(f, message, number).Some? {
        assert visits[n] == f;
      } else if g :| g in front && LatestIn(g, message, number).Some? {
        var w := Last(Log(front), key).value;
        var i :| 0 <= i < n && front[i] == w.field.parent && LatestIn(w.field.parent, message, number).Some?
                 && forall j :: i < j < n ==> LatestIn(front[j], message, number).None?;
        assert visits[i] == w.field.parent;
      }
    }
  }

  /** An extension lookup returns the latest declaration of that number in the latest visited file that has one. */
  lemma ExtensionIsLatest(resolver: SimpleResolver, message: string, number: int)
    requires resolver.Valid()
    ensures var found := resolver.FindExtensionByNumber(message, number);
            && (found.Ok? <==> exists f :: f in resolver.visits && LatestIn(f, message, number).Some?)
            && (found.Ok? ==> IsLatestExtending(resolver.visits, found.value.parent, message, number)
                              && LatestIn(found.value.parent, message, number) == Some(found.value.declaration))
  {
    hide Apply, Last, Log, IsLatestExtending, LatestIn;
    IndexIsLastWrite(Log(resolver.visits), FieldKey(message, number));
    LastFieldOfVisits(resolver.visits, message, number);
  }
}
