/** The descriptor index: three maps filled by a recursive walk over registered files. */
module Resolver {
  import opened Collections
  import opened ImportGraph

  datatype Kind = ServiceKind | EnumKind | MessageKind | ExtensionKind

  /** A top-level declaration together with the file it was registered from. */
  datatype Symbol = Symbol(kind: Kind, name: string, parent: File)

  datatype Field = Field(declaration: Extension, parent: File)

  datatype LookupError = NotFound

  datatype Index = Index(files: map<string, File>, symbols: map<string, Symbol>,
                         extensions: map<string, map<int, Field>>)

  const EMPTY := Index(map[], map[], map[])

  // ---------------------------------------------------------------- the log of declarations

  datatype Key = FileKey(path: string) | SymbolKey(name: string) | MessageKey(message: string)
               | FieldKey(extendee: string, number: int)

  datatype Write =
    | WriteFile(file: File)
    | WriteSymbol(symbol: Symbol)
    | WriteMessage(message: string)
    | WriteField(field: Field)

  /** An extension also makes its extended message known to the index. */
  predicate Touches(w: Write, k: Key) {
    match w
    case WriteFile(f) => k == FileKey(f.path)
    case WriteSymbol(s) => k == SymbolKey(s.name)
    case WriteMessage(m) => k == MessageKey(m)
    case WriteField(f) => k == MessageKey(f.declaration.extendee)
                          || k == FieldKey(f.declaration.extendee, f.declaration.number)
  }

  function ServiceLog(f: File, k: nat): seq<Write>
    requires f.File? && k <= |f.services|
  {
    if k == 0 then [] else ServiceLog(f, k - 1) + [WriteSymbol(Symbol(ServiceKind, f.services[k - 1], f))]
  }

  function EnumLog(f: File, k: nat): seq<Write>
    requires f.File? && k <= |f.enums|
  {
    if k == 0 then [] else EnumLog(f, k - 1) + [WriteSymbol(Symbol(EnumKind, f.enums[k - 1], f))]
  }

  function MessageLog(f: File, k: nat): seq<Write>
    requires f.File? && k <= |f.messages|
  {
    if k == 0 then []
    else MessageLog(f, k - 1) + [WriteSymbol(Symbol(MessageKind, f.messages[k - 1], f)), WriteMessage(f.messages[k - 1])]
  }

  function ExtensionLog(f: File, k: nat): seq<Write>
    requires f.File? && k <= |f.extensions|
  {
    if k == 0 then []
    else
      var e := f.extensions[k - 1];
      ExtensionLog(f, k - 1) + [WriteSymbol(Symbol(ExtensionKind, e.name, f)), WriteField(Field(e, f))]
  }

  /** Everything one file declares at top level, in declaration order. */
  function FileLog(f: File): seq<Write> {
    [WriteFile(f)] + if f.File? then DeclarationLog(f) else []
  }

  function DeclarationLog(f: File): seq<Write>
    requires f.File?
  {
    ServiceLog(f, |f.services|) + EnumLog(f, |f.enums|) + MessageLog(f, |f.messages|) + ExtensionLog(f, |f.extensions|)
  }

  function Log(visits: seq<File>): seq<Write> {
    if visits == [] then [] else Log(visits[..|visits| - 1]) + FileLog(visits[|visits| - 1])
  }

  /** Depth-first preorder over resolved imports, one visit per import path. */
  function Preorder(f: File): seq<File>
    decreases f, 1
  {
    [f] + if f.File? then ImportPreorder(f.imports, |f.imports|) else []
  }

  function ImportPreorder(fs: seq<File>, k: nat): seq<File>
    requires k <= |fs|
    decreases fs, 0, k
  {
    if k == 0 then []
    else ImportPreorder(fs, k - 1) + if fs[k - 1].Placeholder? then [] else Preorder(fs[k - 1])
  }

  function Preorders(fs: seq<File>): seq<File> {
    if fs == [] then [] else Preorders(fs[..|fs| - 1]) + Preorder(fs[|fs| - 1])
  }

  lemma {:induction false} PreordersAppend(a: seq<File>, b: seq<File>)
    ensures Preorders(a + b) == Preorders(a) + Preorders(b)
  {
    hide Preorder;
    if b == [] {
      assert a + b == a;
    } else {
      assert (a + b)[..|a + b| - 1] == a + b[..|b| - 1];
      PreordersAppend(a, b[..|b| - 1]);
    }
  }

  lemma WalkBegins(earlier: seq<File>, fd: File)
    requires fd.File?
    ensures earlier + [fd] == earlier + ([fd] + ImportPreorder(fd.imports, 0))
  {
  }

  lemma WalkStep(earlier: seq<File>, fd: File, i: nat)
    requires fd.File? && i < |fd.imports|
    ensures earlier + ([fd] + ImportPreorder(fd.imports, i)) + (if fd.imports[i].Placeholder? then [] else Preorder(fd.imports[i]))
         == earlier + ([fd] + ImportPreorder(fd.imports, i + 1))
  {
    hide Preorder;
  }

  lemma WalkIsPreorder(fd: File)
    ensures Preorder(fd) == if fd.File? then [fd] + ImportPreorder(fd.imports, |fd.imports|) else [fd]
  {
  }

  lemma NothingVisited(fds: seq<File>)
    ensures Preorders(fds[..0]) == []
  {
  }

  lemma VisitsStep(earlier: seq<File>, fds: seq<File>, i: nat)
    requires i < |fds|
    ensures earlier + Preorders(fds[..i]) + Preorder(fds[i]) == earlier + Preorders(fds[..i + 1])
  {
    hide Preorder;
    assert fds[..i + 1][..i] == fds[..i];
  }

  // ---------------------------------------------------------------- index as a fold

  function Put(idx: Index, w: Write): Index {
    match w
    case WriteFile(f) => idx.(files := idx.files[f.path := f])
    case WriteSymbol(s) => idx.(symbols := idx.symbols[s.name := s])
    case WriteMessage(m) => if m in idx.extensions then idx else idx.(extensions := idx.extensions[m := map[]])
    case WriteField(f) =>
      var m := f.declaration.extendee;
      var fields := if m in idx.extensions then idx.extensions[m] else map[];
      idx.(extensions := idx.extensions[m := fields[f.declaration.number := f]])
  }

  function Apply(idx: Index, log: seq<Write>): Index {
    if log == [] then idx else Put(Apply(idx, log[..|log| - 1]), log[|log| - 1])
  }

  /** The index after registering these files, over any number of calls. */
  ghost function IndexAfter(registered: seq<File>): Index {
    Apply(EMPTY, Log(Preorders(registered)))
  }

  lemma {:induction false} ApplyAppend(idx: Index, a: seq<Write>, b: seq<Write>)
    ensures Apply(idx, a + b) == Apply(Apply(idx, a), b)
  {
    if b == [] {
      assert a + b == a;
    } else {
      assert (a + b)[..|a + b| - 1] == a + b[..|b| - 1];
      ApplyAppend(idx, a, b[..|b| - 1]);
    }
  }

  lemma {:induction false} LogAppend(a: seq<File>, b: seq<File>)
    ensures Log(a + b) == Log(a) + Log(b)
  {
    hide FileLog;
    if b == [] {
      assert a + b == a;
    } else {
      assert (a + b)[..|a + b| - 1] == a + b[..|b| - 1];
      LogAppend(a, b[..|b| - 1]);
    }
  }

  lemma LogOne(f: File)
    ensures Log([f]) == FileLog(f)
  {
    assert [f][..0] == [];
  }

  // ---------------------------------------------------------------- the resolver object

  class SimpleResolver {
    var files: map<string, File>
    var descriptors: map<string, Symbol>
    var extensionMap: map<string, map<int, Field>>
    /** Every file visit since construction, oldest first. */
    ghost var visits: seq<File>
    /** Every file passed to RegisterFiles, over all calls. */
    ghost var registered: seq<File>

    function Contents(): Index
      reads this
    {
      Index(files, descriptors, extensionMap)
    }

    ghost predicate Indexed()
      reads this
    {
      Contents() == Apply(EMPTY, Log(visits))
    }

    ghost predicate Valid()
      reads this
    {
      Indexed() && visits == Preorders(registered)
    }

    constructor ()
      ensures Valid() && visits == [] && registered == []
    {
      files, descriptors, extensionMap := map[], map[], map[];
      visits, registered := [], [];
    }

    method RegisterFiles(fds: seq<File>)
      requires Valid()
      modifies this
      ensures Valid() && registered == old(registered) + fds
      ensures visits == old(visits) + Preorders(fds)
    {
      hide Apply, Log, Preorders, Preorder;
      PreordersAppend(registered, fds);
      NothingVisited(fds);
      for i := 0 to |fds|
        invariant Indexed() && visits == old(visits) + Preorders(fds[..i])
        invariant registered == old(registered)
      {
        RegisterFileLocked(fds[i]);
        VisitsStep(old(visits), fds, i);
      }
      assert fds[..|fds|] == fds;
      registered := registered + fds;
    }

    method RegisterFileLocked(fd: File)
      requires Indexed()
      modifies this`files, this`descriptors, this`extensionMap, this`visits
      ensures Indexed() && visits == old(visits) + Preorder(fd)
      decreases fd
    {
      hide *;
      RegisterOwnDeclarations(fd);
      if fd.File? {
        WalkBegins(old(visits), fd);
        for i := 0 to |fd.imports|
          invariant Indexed() && visits == old(visits) + ([fd] + ImportPreorder(fd.imports, i))
        {
          WalkStep(old(visits), fd, i);
          if fd.imports[i].File? {
            RegisterFileLocked(fd.imports[i]);
          }
        }
      }
      WalkIsPreorder(fd);
    }

    /** The part of registering a file that does not recurse. */
    method RegisterOwnDeclarations(fd: File)
      requires Indexed()
      modifies this`files, this`descriptors, this`extensionMap, this`visits
      ensures Indexed() && visits == old(visits) + [fd]
    {
      hide Apply, Log, DeclarationLog;
      files := files[fd.path := fd];
      ApplyOne(old(Contents()), WriteFile(fd));
      ghost var declared := [];
      if fd.File? {
        RegisterDeclarations(fd);
        declared := DeclarationLog(fd);
        ApplyAppend(old(Contents()), [WriteFile(fd)], declared);
      }
      visits := visits + [fd];
      LogAppend(old(visits), [fd]);
      LogOne(fd);
      assert FileLog(fd) == [WriteFile(fd)] + declared;
      assert fd.Placeholder? ==> FileLog(fd) == [WriteFile(fd)];
      ApplyAppend(EMPTY, Log(old(visits)), FileLog(fd));
    }

    method RegisterDeclarations(fd: File)
      requires fd.File?
      modifies this`descriptors, this`extensionMap
      ensures Contents() == Apply(old(Contents()), DeclarationLog(fd))
    {
      RegisterServicesAndEnums(fd);
      ghost var s, e, m := ServiceLog(fd, |fd.services|), EnumLog(fd, |fd.enums|), MessageLog(fd, |fd.messages|);
      ghost var x := ExtensionLog(fd, |fd.extensions|);
      RegisterMessages(fd);
      RegisterExtensions(fd);
      ApplyAppend(old(Contents()), s + e, m);
      ApplyAppend(old(Contents()), s + e + m, x);
    }

    method RegisterServicesAndEnums(fd: File)
      requires fd.File?
      modifies this`descriptors
      ensures Contents() == Apply(old(Contents()), ServiceLog(fd, |fd.services|) + EnumLog(fd, |fd.enums|))
    {
      ghost var start := Contents();
      for i := 0 to |fd.services|
        invariant Contents() == Apply(start, ServiceLog(fd, i))
      {
        descriptors := descriptors[fd.services[i] := Symbol(ServiceKind, fd.services[i], fd)];
      }
      ghost var afterServices := Contents();
      for i := 0 to |fd.enums|
        invariant Contents() == Apply(afterServices, EnumLog(fd, i))
      {
        descriptors := descriptors[fd.enums[i] := Symbol(EnumKind, fd.enums[i], fd)];
      }
      ApplyAppend(start, ServiceLog(fd, |fd.services|), EnumLog(fd, |fd.enums|));
    }

    method RegisterMessages(fd: File)
      requires fd.File?
      modifies this`descriptors, this`extensionMap
      ensures Contents() == Apply(old(Contents()), MessageLog(fd, |fd.messages|))
    {
      for i := 0 to |fd.messages|
        invariant Contents() == Apply(old(Contents()), MessageLog(fd, i))
      {
        var name := fd.messages[i];
        descriptors := descriptors[name := Symbol(MessageKind, name, fd)];
        if name !in extensionMap {
          extensionMap := extensionMap[name := map[]];
        }
        ApplyTwo(old(Contents()), MessageLog(fd, i), WriteSymbol(Symbol(MessageKind, name, fd)), WriteMessage(name));
      }
    }

    method RegisterExtensions(fd: File)
      requires fd.File?
      modifies this`descriptors, this`extensionMap
      ensures Contents() == Apply(old(Contents()), ExtensionLog(fd, |fd.extensions|))
    {
      for i := 0 to |fd.extensions|
        invariant Contents() == Apply(old(Contents()), ExtensionLog(fd, i))
      {
        var extension := fd.extensions[i];
        descriptors := descriptors[extension.name := Symbol(ExtensionKind, extension.name, fd)];
        var mapEntry := if extension.extendee in extensionMap then extensionMap[extension.extendee] else map[];
        extensionMap := extensionMap[extension.extendee := mapEntry[extension.number := Field(extension, fd)]];
        ApplyTwo(old(Contents()), ExtensionLog(fd, i),
                 WriteSymbol(Symbol(ExtensionKind, extension.name, fd)), WriteField(Field(extension, fd)));
      }
    }

    function FindFileByPath(path: string): Result<File, LookupError>
      reads this
    {
      if path in files then Ok(files[path]) else Err(NotFound)
    }

    function FindDescriptorByName(name: string): Result<Symbol, LookupError>
      reads this
    {
      if name in descriptors then Ok(descriptors[name]) else Err(NotFound)
    }

    function FindExtensionByNumber(message: string, number: int): Result<Field, LookupError>
      reads this
    {
      if message in extensionMap && number in extensionMap[message]
      then Ok(extensionMap[message][number])
      else Err(NotFound)
    }

    /** The numbers come back in the unspecified order of a map iteration. */
    method GetExtensionsByMessage(message: string) returns (res: Result<seq<int>, LookupError>)
      requires Valid()
      ensures res.Err? <==> message !in extensionMap
      ensures res.Ok? ==> NoDup(res.value)
                          && forall n :: n in res.value <==> FindExtensionByNumber(message, n).Ok?
    {
      if message !in extensionMap {
        return Err(NotFound);
      }
      forall n | n in extensionMap[message] ensures extensionMap[message][n].declaration.number == n {
        FieldsKeyedByNumber(Log(visits), message, n);
      }
      var numbers := NumbersOf(extensionMap[message]);
      res := Ok(numbers);
    }
  }

  method NumbersOf(extensions: map<int, Field>) returns (numbers: seq<int>)
    requires forall n :: n in extensions ==> extensions[n].declaration.number == n
    ensures NoDup(numbers) && forall n :: n in numbers <==> n in extensions
  {
    numbers := [];
    var todo := extensions.Keys;
    while todo != {}
      invariant todo <= extensions.Keys
      invariant NoDup(numbers)
      invariant forall n :: n in numbers <==> n in extensions && n !in todo
    {
      var key := Pick(todo);
      todo := todo - {key};
      numbers := numbers + [extensions[key].declaration.number];
    }
  }

  lemma ApplyOne(idx: Index, w: Write)
    ensures Apply(idx, [w]) == Put(idx, w)
  {
    assert [w][..0] == [];
  }

  lemma ApplyTwo(idx: Index, log: seq<Write>, w: Write, v: Write)
    ensures Apply(idx, log + [w, v]) == Put(Put(Apply(idx, log), w), v)
  {
    assert log + [w, v] == (log + [w]) + [v];
    assert (log + [w] + [v])[..|log| + 1] == log + [w];
    assert (log + [w])[..|log|] == log;
  }

  lemma {:induction false} FieldsKeyedByNumber(log: seq<Write>, message: string, number: int)
    requires var m := Apply(EMPTY, log).extensions; message in m && number in m[message]
    ensures Apply(EMPTY, log).extensions[message][number].declaration.number == number
    ensures Apply(EMPTY, log).extensions[message][number].declaration.extendee == message
  {
    var before := Apply(EMPTY, log[..|log| - 1]).extensions;
    if message in before && number in before[message] {
      FieldsKeyedByNumber(log[..|log| - 1], message, number);
    }
  }
}
