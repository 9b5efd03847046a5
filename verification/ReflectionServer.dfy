/** The reflection server: one handler per stream, sending each file path at most once. */
module ReflectionServer {
  import opened Collections
  import opened ImportGraph
  import opened Resolver
  import opened ResolverProperties
  import opened LatestDeclarations

  // ---------------------------------------------------------------- specification

  /** Resolved files in the order a breadth-first walk without visited check meets them. */
  ghost function Bfs(queue: seq<File>): seq<File>
    decreases PathCounts(queue)
  {
    if queue == [] then []
    else if queue[0].Placeholder? then Bfs(queue[1..])
    else
      PathCountsAppend(queue[1..], queue[0].imports);
      assert PathCount(queue[0]) == 1 + PathCounts(queue[0].imports);
      [queue[0]] + Bfs(queue[1..] + queue[0].imports)
  }

  /** The visits whose path is neither in `sent` nor taken by an earlier visit. */
  ghost function Unsent(visits: seq<File>, sent: set<string>): seq<File> {
    if visits == [] then []
    else if visits[0].path in sent then Unsent(visits[1..], sent)
    else [visits[0]] + Unsent(visits[1..], sent + {visits[0].path})
  }

  /** The files of one successful response: always the root, then whatever was not sent yet. */
  ghost function Transfer(root: File, sent: set<string>): seq<File>
    requires root.File?
  {
    [root] + Unsent(Bfs(root.imports), sent + {root.path})
  }

  ghost predicate IsEncodingOf(protos: seq<FileProto>, files: seq<File>) {
    |protos| == |files|
    && forall i :: 0 <= i < |files| ==> protos[i] == ToProto(files[i])
  }

  // ---------------------------------------------------------------- requests

  datatype Request =
    | FileByFilename(filename: string)
    | FileContainingSymbol(symbol: string)
    | FileContainingExtension(containingType: string, number: int)
    | AllExtensionNumbersOfType(name: string)
    | ListServices
    | UnknownRequest

  datatype Response =
    | FileDescriptors(protos: seq<FileProto>)
    | ExtensionNumbers(baseTypeName: string, numbers: seq<int>)
    | Services(names: seq<string>)
    | NotFoundError
    | UnimplementedError

  /** The file a request leads to; a placeholder if it leads nowhere. */
  function RootOf(index: Index, r: Request): File {
    match r
    case FileByFilename(name) => if name in index.files then index.files[name] else Placeholder(name)
    case FileContainingSymbol(symbol) => if symbol in index.symbols then index.symbols[symbol].parent else Placeholder("")
    case FileContainingExtension(message, number) =>
      if message in index.extensions && number in index.extensions[message]
      then index.extensions[message][number].parent
      else Placeholder("")
    case _ => Placeholder("")
  }

  const V1_SERVICE := "grpc.reflection.v1.ServerReflection"
  const V1ALPHA_SERVICE := "grpc.reflection.v1alpha.ServerReflection"

  predicate IsReflectionService(name: string) { name == V1_SERVICE || name == V1ALPHA_SERVICE }

  /** All names but those of the reflection services. */
  function Visible(names: seq<string>): seq<string> {
    if names == [] then []
    else Visible(names[..|names| - 1]) + if IsReflectionService(names[|names| - 1]) then [] else [names[|names| - 1]]
  }

  lemma {:induction false} VisibleExactly(names: seq<string>, n: string)
    ensures multiset(Visible(names))[n] == if IsReflectionService(n) then 0 else multiset(names)[n]
  {
    if names != [] {
      assert names == names[..|names| - 1] + [names[|names| - 1]];
      VisibleExactly(names[..|names| - 1], n);
    }
  }

  /** The right reply to a request when the paths `sentBefore` were sent earlier on the stream and the
      proxy provides `services`. */
  ghost predicate IsReply(index: Index, r: Request, response: Response, sentBefore: set<string>, services: seq<string>) {
    match r
    case AllExtensionNumbersOfType(name) =>
      if name !in index.extensions then response == NotFoundError
      else
        && response.ExtensionNumbers? && response.baseTypeName == name
        && (forall i, j :: 0 <= i < j < |response.numbers| ==> response.numbers[i] < response.numbers[j])
        && (forall n :: n in response.numbers <==> n in index.extensions[name])
    case ListServices => response == Services(Visible(services))
    case UnknownRequest => response == UnimplementedError
    case _ =>
      var root := RootOf(index, r);
      if root.Placeholder? then response == NotFoundError
      else response.FileDescriptors? && IsEncodingOf(response.protos, Transfer(root, sentBefore))
  }

  /** The descriptor lists the symbol as a declaration of this kind. */
  ghost predicate ListsAs(p: FileProto, kind: Kind, name: string) {
    match kind
    case ServiceKind => name in p.services
    case EnumKind => name in p.enums
    case MessageKind => name in p.messages
    case ExtensionKind => exists e :: e in p.extensions && e.name == name
  }

  ghost predicate HasExtension(p: FileProto, message: string, number: int) {
    exists e :: e in p.extensions && e.extendee == message && e.number == number
  }

  /** What a client can expect of a reply, in terms of the files registered so far and of the names of the
      services provided. */
  ghost predicate Serves(registered: seq<File>, services: seq<string>, r: Request, response: Response) {
    match r
    case FileByFilename(name) =>
      if ResolvedLast(registered, name)
      then response.FileDescriptors? && response.protos != [] && response.protos[0].name == name
      else response == NotFoundError
    case FileContainingSymbol(symbol) =>
      if exists f :: f in Closures(registered) && Declares(f, symbol)
      then response.FileDescriptors? && response.protos != [] && exists kind :: ListsAs(response.protos[0], kind, symbol)
      else response == NotFoundError
    case FileContainingExtension(message, number) =>
      if exists f :: f in Closures(registered) && Extends(f, message, number)
      then response.FileDescriptors? && response.protos != [] && HasExtension(response.protos[0], message, number)
      else response == NotFoundError
    case AllExtensionNumbersOfType(name) =>
      if exists f :: f in Closures(registered) && Mentions(f, name)
      then
        && response.ExtensionNumbers? && response.baseTypeName == name
        && (forall i, j :: 0 <= i < j < |response.numbers| ==> response.numbers[i] < response.numbers[j])
        && (forall n :: n in response.numbers <==> exists f :: f in Closures(registered) && Extends(f, name, n))
      else response == NotFoundError
    case ListServices =>
      response.Services?
      && forall n :: multiset(response.names)[n]
                  == if n == "grpc.reflection.v1.ServerReflection" || n == "grpc.reflection.v1alpha.ServerReflection"
                     then 0 else multiset(services)[n]
    case UnknownRequest => response == UnimplementedError
  }

  /** A message of a stream, with the files registered since the message before and the names of the
      services that the proxy provides when it is handled, in the order of a map iteration. */
  datatype Message = Message(request: Request, registered: seq<File>, services: seq<string>)

  ghost function RegisteredBy(earlier: seq<File>, messages: seq<Message>): seq<File> {
    if messages == [] then earlier
    else RegisteredBy(earlier, messages[..|messages| - 1]) + messages[|messages| - 1].registered
  }

  /** The index with which message `i` is handled. */
  ghost function IndexAt(earlier: seq<File>, messages: seq<Message>, i: nat): Index
    requires i < |messages|
  {
    IndexAfter(RegisteredBy(earlier, messages[..i + 1]))
  }

  ghost function RootsOf(earlier: seq<File>, messages: seq<Message>): (roots: seq<File>)
    ensures |roots| == |messages|
    ensures forall i :: 0 <= i < |messages| ==> roots[i] == RootOf(IndexAt(earlier, messages, i), messages[i].request)
  {
    seq(|messages|, i requires 0 <= i < |messages| => RootOf(IndexAt(earlier, messages, i), messages[i].request))
  }

  // ---------------------------------------------------------------- the handler

  class ReflectionHandler {
    var sentFileDescriptors: set<string>
    const resolver: SimpleResolver

    constructor (resolver: SimpleResolver)
      ensures this.resolver == resolver && sentFileDescriptors == {}
    {
      this.resolver := resolver;
      sentFileDescriptors := {};
    }

    /** `dequeues` counts the iterations: one per import path, including those ending in placeholders. */
    method FileDescWithDependencies(fd: File) returns (res: Result<seq<FileProto>, LookupError>, ghost dequeues: nat)
      modifies this`sentFileDescriptors
      ensures res.Err? <==> fd.Placeholder?
      ensures res.Ok? ==> IsEncodingOf(res.value, Transfer(fd, old(sentFileDescriptors)))
      ensures res.Ok? ==> forall i :: 0 <= i < |res.value| ==> Describes(res.value[i], Transfer(fd, old(sentFileDescriptors))[i])
      ensures sentFileDescriptors == old(sentFileDescriptors) + PathSet(Closure(fd))
      ensures res.Ok? ==> dequeues == |ImportPaths(fd)|
    {
      dequeues := 0;
      if fd.Placeholder? {
        return Err(NotFound), 0;
      }
      hide WalkState, Transfer, PathCount, PathCounts, Closure, PathSet, ImportPaths;
      var r := [];
      var queue := [fd];
      ghost var files: seq<File> := [];
      WalkStarts(fd, sentFileDescriptors);
      while queue != []
        invariant WalkState(fd, old(sentFileDescriptors), queue, sentFileDescriptors, files)
        invariant IsEncodingOf(r, files)
        invariant dequeues + PathCounts(queue) == PathCount(fd)
        decreases PathCounts(queue)
      {
        ghost var before := queue;
        var currentfd := queue[0];
        queue := queue[1..];
        dequeues := dequeues + 1;
        assert before == [currentfd] + queue;
        if currentfd.Placeholder? {
          SkipStep(fd, old(sentFileDescriptors), currentfd, queue, sentFileDescriptors, files);
          continue;
        }
        VisitStep(fd, old(sentFileDescriptors), currentfd, queue, sentFileDescriptors, files);
        if r == [] || currentfd.path !in sentFileDescriptors {
          sentFileDescriptors := sentFileDescriptors + {currentfd.path};
          r := r + [ToProto(currentfd)];
          files := files + [currentfd];
        }
        queue := queue + currentfd.imports;
      }
      WalkEnds(fd, old(sentFileDescriptors), sentFileDescriptors, files);
      PathCountIsNumberOfPaths(fd);
      EncodingDescribes(fd, old(sentFileDescriptors), r);
      res := Ok(r);
    }

    method FileByFilename(filename: string) returns (res: Result<seq<FileProto>, LookupError>)
      modifies this`sentFileDescriptors
      ensures filename !in resolver.files || resolver.files[filename].Placeholder? ==>
                res.Err? && sentFileDescriptors == old(sentFileDescriptors)
      ensures filename in resolver.files && resolver.files[filename].File? ==>
                AnswersWith(res, resolver.files[filename], old(sentFileDescriptors), sentFileDescriptors)
    {
      var d := resolver.FindFileByPath(filename);
      if d.Err? {
        return Err(d.error);
      }
      ghost var n;
      res, n := FileDescWithDependencies(d.value);
    }

    method FileContainingSymbol(symbol: string) returns (res: Result<seq<FileProto>, LookupError>)
      modifies this`sentFileDescriptors
      ensures symbol !in resolver.descriptors || resolver.descriptors[symbol].parent.Placeholder? ==>
                res.Err? && sentFileDescriptors == old(sentFileDescriptors)
      ensures symbol in resolver.descriptors && resolver.descriptors[symbol].parent.File? ==>
                AnswersWith(res, resolver.descriptors[symbol].parent, old(sentFileDescriptors), sentFileDescriptors)
    {
      var d := resolver.FindDescriptorByName(symbol);
      if d.Err? {
        return Err(d.error);
      }
      ghost var n;
      res, n := FileDescWithDependencies(d.value.parent);
    }

    method FileContainingExtension(containingType: string, number: int) returns (res: Result<seq<FileProto>, LookupError>)
      modifies this`sentFileDescriptors
      ensures var x := resolver.FindExtensionByNumber(containingType, number);
              if x.Err? || x.value.parent.Placeholder?
              then res.Err? && sentFileDescriptors == old(sentFileDescriptors)
              else AnswersWith(res, x.value.parent, old(sentFileDescriptors), sentFileDescriptors)
    {
      var xt := resolver.FindExtensionByNumber(containingType, number);
      if xt.Err? {
        return Err(xt.error);
      }
      ghost var n;
      res, n := FileDescWithDependencies(xt.value.parent);
    }

    /** Strictly ascending, and exactly the numbers for which a lookup succeeds. */
    method AllExtensionNumbersOfType(name: string) returns (res: Result<seq<int>, LookupError>)
      requires resolver.Valid()
      ensures res.Err? <==> name !in resolver.extensionMap
      ensures res.Ok? ==> (forall i, j :: 0 <= i < j < |res.value| ==> res.value[i] < res.value[j])
                          && forall n :: n in res.value <==> resolver.FindExtensionByNumber(name, n).Ok?
    {
      var numbers := resolver.GetExtensionsByMessage(name);
      if numbers.Err? {
        return numbers;
      }
      SortDistinct(numbers.value);
      res := Ok(Sort(numbers.value));
    }

    method ReflectionListServices(services: seq<string>) returns (names: seq<string>)
      ensures names == Visible(services)
    {
      names := [];
      for i := 0 to |services|
        invariant names == Visible(services[..i])
      {
        assert services[..i + 1][..i] == services[..i];
        if services[i] == V1_SERVICE || services[i] == V1ALPHA_SERVICE {
          continue;
        }
        names := names + [services[i]];
      }
      assert services[..|services|] == services;
    }

    /** The reply to one message of the stream. */
    method Reply(request: Request, services: seq<string>) returns (response: Response)
      requires resolver.Valid()
      modifies this`sentFileDescriptors
      ensures sentFileDescriptors == old(sentFileDescriptors) + PathSet(Closure(RootOf(resolver.Contents(), request)))
      ensures IsReply(resolver.Contents(), request, response, old(sentFileDescriptors), services)
      ensures Serves(resolver.registered, services, request, response)
      ensures request.FileContainingSymbol? && response.FileDescriptors? ==>
                && request.symbol in resolver.descriptors && response.protos != []
                && ListsAs(response.protos[0], resolver.descriptors[request.symbol].kind, request.symbol)
    {
      response := DispatchRequest(request, services);
      ReplyServes(resolver, request, response, old(sentFileDescriptors), services);
      if request.FileContainingSymbol? {
        ReplyListsSymbol(resolver, request.symbol, response, old(sentFileDescriptors), services);
      }
    }

    method DispatchRequest(request: Request, services: seq<string>) returns (response: Response)
      requires resolver.Valid()
      modifies this`sentFileDescriptors
      ensures sentFileDescriptors == old(sentFileDescriptors) + PathSet(Closure(RootOf(resolver.Contents(), request)))
      ensures IsReply(resolver.Contents(), request, response, old(sentFileDescriptors), services)
    {
      hide Transfer, PathSet, SimpleResolver.Valid;
      NothingBehindPlaceholders();
      var files: Result<seq<FileProto>, LookupError>;
      match request {
        case FileByFilename(name) => files := FileByFilename(name);
        case FileContainingSymbol(symbol) => files := FileContainingSymbol(symbol);
        case FileContainingExtension(message, number) => files := FileContainingExtension(message, number);
        case AllExtensionNumbersOfType(name) =>
          var numbers := AllExtensionNumbersOfType(name);
          return if numbers.Ok? then ExtensionNumbers(name, numbers.value) else NotFoundError;
        case ListServices =>
          var names := ReflectionListServices(services);
          return Services(names);
        case UnknownRequest => return UnimplementedError;
      }
      response := if files.Ok? then FileDescriptors(files.value) else NotFoundError;
    }

    /** The request loop of one stream, while files keep being registered: every message gets one reply,
        which for a file is `Answer(roots, i)`. */
    method ServerReflectionInfo(messages: seq<Message>) returns (responses: seq<Response>)
      requires resolver.Valid() && sentFileDescriptors == {}
      modifies this`sentFileDescriptors, resolver
      ensures resolver.Valid() && resolver.registered == RegisteredBy(old(resolver.registered), messages)
      ensures |responses| == |messages| && AreReplies(old(resolver.registered), messages, responses)
      ensures sentFileDescriptors == SentAfter(RootsOf(old(resolver.registered), messages))
    {
      hide *;
      responses := [];
      ghost var earlier := resolver.registered;
      ghost var roots := RootsOf(earlier, messages);
      StreamStarts(earlier, messages);
      for i := 0 to |messages|
        invariant resolver.Valid() && resolver.registered == RegisteredBy(earlier, messages[..i])
        invariant sentFileDescriptors == SentAfter(roots[..i])
        invariant |responses| == i && AreReplies(earlier, messages, responses)
      {
        StreamStep(earlier, messages, i);
        resolver.RegisterFiles(messages[i].registered);
        ContentsAreIndex(resolver);
        var response := Reply(messages[i].request, messages[i].services);
        OneMoreReply(earlier, messages, responses, response);
        responses := responses + [response];
      }
      assert roots[..|messages|] == roots && messages[..|messages|] == messages;
    }
  }

  /** Each response is the right reply to its message, given the messages before. */
  ghost predicate AreReplies(earlier: seq<File>, messages: seq<Message>, responses: seq<Response>) {
    |responses| <= |messages|
    && forall i :: 0 <= i < |responses| ==>
         IsReply(IndexAt(earlier, messages, i), messages[i].request, responses[i],
                 SentAfter(RootsOf(earlier, messages)[..i]), messages[i].services)
         && Serves(RegisteredBy(earlier, messages[..i + 1]), messages[i].services, messages[i].request, responses[i])
  }

  lemma StreamStarts(earlier: seq<File>, messages: seq<Message>)
    ensures RegisteredBy(earlier, messages[..0]) == earlier && SentAfter(RootsOf(earlier, messages)[..0]) == {}
    ensures AreReplies(earlier, messages, [])
  {
  }

  lemma StreamStep(earlier: seq<File>, messages: seq<Message>, i: nat)
    requires i < |messages|
    ensures RegisteredBy(earlier, messages[..i + 1]) == RegisteredBy(earlier, messages[..i]) + messages[i].registered
    ensures IndexAt(earlier, messages, i) == IndexAfter(RegisteredBy(earlier, messages[..i + 1]))
    ensures SentAfter(RootsOf(earlier, messages)[..i + 1])
         == SentAfter(RootsOf(earlier, messages)[..i]) + PathSet(Closure(RootOf(IndexAt(earlier, messages, i), messages[i].request)))
  {
    hide RootOf, IndexAfter, Closure, PathSet;
    var roots := RootsOf(earlier, messages);
    assert messages[..i + 1][..i] == messages[..i] && roots[..i + 1][..i] == roots[..i];
  }

  lemma OneMoreReply(earlier: seq<File>, messages: seq<Message>, responses: seq<Response>, response: Response)
    requires |responses| < |messages| && AreReplies(earlier, messages, responses)
    requires var i := |responses|;
             IsReply(IndexAt(earlier, messages, i), messages[i].request, response, SentAfter(RootsOf(earlier, messages)[..i]), messages[i].services)
             && Serves(RegisteredBy(earlier, messages[..i + 1]), messages[i].services, messages[i].request, response)
    ensures AreReplies(earlier, messages, responses + [response])
  {
    hide IsReply, IndexAt, SentAfter, Serves, RegisteredBy;
  }

  lemma ContentsAreIndex(resolver: SimpleResolver)
    requires resolver.Valid()
    ensures resolver.Contents() == IndexAfter(resolver.registered)
  {
  }

  lemma NothingBehindPlaceholders()
    ensures forall path :: PathSet(Closure(Placeholder(path))) == {}
  {
  }

  ghost predicate AnswersWith(res: Result<seq<FileProto>, LookupError>, root: File,
                              sentBefore: set<string>, sentAfter: set<string>)
    requires root.File?
  {
    res.Ok? && IsEncodingOf(res.value, Transfer(root, sentBefore)) && sentAfter == sentBefore + PathSet(Closure(root))
  }

  lemma EncodingDescribes(root: File, sent: set<string>, protos: seq<FileProto>)
    requires root.File? && IsEncodingOf(protos, Transfer(root, sent))
    ensures forall i :: 0 <= i < |protos| ==> Describes(protos[i], Transfer(root, sent)[i])
  {
    hide Transfer, ToProto, Describes, Closure;
    forall i | 0 <= i < |protos| ensures Describes(protos[i], Transfer(root, sent)[i]) {
      var f := Transfer(root, sent)[i];
      TransferElements(root, sent);
      ClosureHasOnlyFiles(root);
      assert f in Transfer(root, sent);
      ToProtoDescribes(protos[i], f);
    }
  }

  // ---------------------------------------------------------------- steps of the walk

  /** What the loop keeps: the files collected so far and the rest of the walk make up the whole transfer. */
  ghost predicate WalkState(fd: File, start: set<string>, queue: seq<File>, sent: set<string>, files: seq<File>)
    requires fd.File?
  {
    && (if files == [] then queue == [fd] && sent == start
        else files + Unsent(Bfs(queue), sent) == Transfer(fd, start))
    && sent + PathSet(Closures(queue)) == start + PathSet(Closure(fd))
  }

  lemma WalkStarts(fd: File, start: set<string>)
    requires fd.File?
    ensures WalkState(fd, start, [fd], start, [])
    ensures PathCounts([fd]) == PathCount(fd)
  {
    assert [fd][1..] == [];
    assert Closures([fd]) == Closure(fd);
  }

  lemma SkipStep(fd: File, start: set<string>, f: File, rest: seq<File>, sent: set<string>, files: seq<File>)
    requires fd.File? && f.Placeholder? && WalkState(fd, start, [f] + rest, sent, files)
    ensures WalkState(fd, start, rest, sent, files)
    ensures PathCounts([f] + rest) == 1 + PathCounts(rest)
  {
    assert ([f] + rest)[1..] == rest;
    assert ([f] + rest)[0] == f;
    assert Closures([f] + rest) == Closures(rest);
  }

  lemma VisitStep(fd: File, start: set<string>, f: File, rest: seq<File>, sent: set<string>, files: seq<File>)
    requires fd.File? && f.File? && WalkState(fd, start, [f] + rest, sent, files)
    ensures if files == [] || f.path !in sent
            then WalkState(fd, start, rest + f.imports, sent + {f.path}, files + [f])
            else WalkState(fd, start, rest + f.imports, sent, files)
    ensures PathCounts([f] + rest) == 1 + PathCounts(rest + f.imports)
  {
    hide Transfer, Bfs, Closures, Closure, PathSet, PathCount, PathCounts;
    var after := rest + f.imports;
    VisitUnfolds(f, rest);
    if files == [] {
      assert ([f] + rest)[0] == fd && rest == [] && after == fd.imports;
      TransferUnfolds(fd, start);
    } else if f.path !in sent {
      assert files + Unsent([f] + Bfs(after), sent) == files + [f] + Unsent(Bfs(after), sent + {f.path});
    }
  }

  /** What dequeuing a file does to the visits, the paths and the number of dequeues still to come. */
  lemma VisitUnfolds(f: File, rest: seq<File>)
    requires f.File?
    ensures Bfs([f] + rest) == [f] + Bfs(rest + f.imports)
    ensures PathSet(Closures([f] + rest)) == {f.path} + PathSet(Closures(rest + f.imports))
    ensures PathCounts([f] + rest) == 1 + PathCounts(rest + f.imports)
  {
    var before, after := [f] + rest, rest + f.imports;
    assert before[1..] == rest;
    PathCountsAppend(rest, f.imports);
    ClosuresAppend(rest, f.imports);
    assert Closures(before) == {f} + Closures(after);
  }

  lemma TransferUnfolds(fd: File, start: set<string>)
    requires fd.File?
    ensures Transfer(fd, start) == [fd] + Unsent(Bfs(fd.imports), start + {fd.path})
  {
  }

  lemma WalkEnds(fd: File, start: set<string>, sent: set<string>, files: seq<File>)
    requires fd.File? && WalkState(fd, start, [], sent, files)
    ensures files == Transfer(fd, start) && sent == start + PathSet(Closure(fd)) && PathCounts([]) == 0
  {
  }

  lemma {:induction false} BfsVisitsClosure(queue: seq<File>, x: File)
    ensures x in Bfs(queue) <==> x in Closures(queue)
    decreases PathCounts(queue)
  {
    if queue != [] {
      if queue[0].Placeholder? {
        BfsVisitsClosure(queue[1..], x);
      } else {
        var next := queue[1..] + queue[0].imports;
        PathCountsAppend(queue[1..], queue[0].imports);
        assert PathCount(queue[0]) == 1 + PathCounts(queue[0].imports);
        ClosuresAppend(queue[1..], queue[0].imports);
        BfsVisitsClosure(next, x);
      }
    }
  }

  lemma {:induction false} UnsentIsFresh(visits: seq<File>, sent: set<string>)
    ensures DistinctPaths(Unsent(visits, sent))
    ensures forall x :: x in Unsent(visits, sent) ==> x in visits && x.path !in sent
  {
    if visits != [] {
      assert visits == [visits[0]] + visits[1..];
      UnsentIsFresh(visits[1..], if visits[0].path in sent then sent else sent + {visits[0].path});
    }
  }

  lemma {:induction false} UnsentCovers(visits: seq<File>, sent: set<string>, x: File)
    requires x in visits && x.path !in sent
    ensures HasPath(Unsent(visits, sent), x.path)
  {
    var seen := if visits[0].path in sent then sent else sent + {visits[0].path};
    if x.path == visits[0].path {
      assert visits[0] in Unsent(visits, sent);
    } else {
      UnsentCovers(visits[1..], seen, x);
      var y :| y in Unsent(visits[1..], seen) && y.path == x.path;
      assert y in Unsent(visits, sent);
    }
  }

  // ---------------------------------------------------------------- one response

  /** The root comes first, and every element belongs to its closure. */
  lemma TransferElements(root: File, sent: set<string>)
    requires root.File?
    ensures Transfer(root, sent) != [] && Transfer(root, sent)[0] == root
    ensures forall x :: x in Transfer(root, sent) ==> x in Closure(root)
  {
    var visits := Bfs(root.imports);
    UnsentIsFresh(visits, sent + {root.path});
    forall x | x in visits ensures x in Closures(root.imports) {
      BfsVisitsClosure(root.imports, x);
    }
  }

  /** No path repeats within a response, and only the root may have been sent before. */
  lemma TransferIsFresh(root: File, sent: set<string>)
    requires root.File?
    ensures DistinctPaths(Transfer(root, sent))
    ensures forall i :: 1 <= i < |Transfer(root, sent)| ==> Transfer(root, sent)[i].path !in sent
  {
    UnsentIsFresh(Bfs(root.imports), sent + {root.path});
  }

  /** The paths of a response are the root's and those of its closure that were not sent before. */
  lemma TransferPaths(root: File, sent: set<string>, p: string)
    requires root.File?
    ensures HasPath(Transfer(root, sent), p) <==> p == root.path || (p in PathSet(Closure(root)) && p !in sent)
  {
    TransferElements(root, sent);
    UnsentIsFresh(Bfs(root.imports), sent + {root.path});
    assert Transfer(root, sent)[0] in Transfer(root, sent);
    if p in PathSet(Closure(root)) && p !in sent && p != root.path {
      var x :| x in Closure(root) && x.path == p;
      BfsVisitsClosure(root.imports, x);
      UnsentCovers(Bfs(root.imports), sent + {root.path}, x);
      var y :| y in Unsent(Bfs(root.imports), sent + {root.path}) && y.path == p;
      assert y in Transfer(root, sent);
    }
  }

  // ---------------------------------------------------------------- whole streams

  /** What the handler has marked as sent after answering `roots`; a placeholder root is an error reply. */
  ghost function SentAfter(roots: seq<File>): set<string> {
    if roots == [] then {} else SentAfter(roots[..|roots| - 1]) + PathSet(Closure(roots[|roots| - 1]))
  }

  /** The i-th answer on a stream that was asked for `roots`. */
  ghost function Answer(roots: seq<File>, i: nat): seq<File>
    requires i < |roots| && roots[i].File?
  {
    Transfer(roots[i], SentAfter(roots[..i]))
  }

  lemma {:induction false} SentGrows(roots: seq<File>, i: nat)
    requires i < |roots|
    ensures SentAfter(roots[..i]) + PathSet(Closure(roots[i])) <= SentAfter(roots)
  {
    var front := roots[..|roots| - 1];
    if i < |roots| - 1 {
      SentGrows(front, i);
      assert front[..i] == roots[..i];
    }
  }

  /** Over a whole stream only the requested root may repeat: no later element was ever sent before. */
  lemma StreamDeduplication(roots: seq<File>, i: nat, j: nat, k: nat)
    requires i < j < |roots| && roots[i].File? && roots[j].File? && 1 <= k < |Answer(roots, j)|
    ensures !HasPath(Answer(roots, i), Answer(roots, j)[k].path)
  {
    hide Transfer, Closure;
    TransferElements(roots[i], SentAfter(roots[..i]));
    TransferIsFresh(roots[j], SentAfter(roots[..j]));
    assert roots[..j][..i] == roots[..i];
    SentGrows(roots[..j], i);
  }

  /** Nothing is lost by deduplication: the paths sent on a stream are exactly those of all closures. */
  lemma {:induction false} StreamCompleteness(roots: seq<File>, p: string)
    ensures p in SentAfter(roots) <==>
            exists i :: 0 <= i < |roots| && roots[i].File? && HasPath(Answer(roots, i), p)
  {
    hide Transfer, HasPath, Closure, PathSet;
    if roots != [] {
      var n := |roots| - 1;
      StreamCompleteness(roots[..n], p);
      forall i | 0 <= i < n && roots[i].File? ensures Answer(roots[..n], i) == Answer(roots, i) {
        assert roots[..n][..i] == roots[..i];
      }
      if roots[n].File? {
        TransferPaths(roots[n], SentAfter(roots[..n]), p);
      }
      ClosurePaths(roots[n]);
    }
  }

  lemma ClosurePaths(root: File)
    ensures if root.File? then root.path in PathSet(Closure(root)) else PathSet(Closure(root)) == {}
  {
    assert root.File? ==> root in Closure(root);
  }

  /** Asking again for a file answered earlier on the stream yields just that file. */
  lemma RepeatSendsOnlyRoot(roots: seq<File>, i: nat, j: nat)
    requires i < j < |roots| && roots[i] == roots[j] && roots[j].File?
    ensures Answer(roots, j) == [roots[j]]
  {
    hide Transfer, Closure;
    assert roots[..j][i] == roots[i];
    SentGrows(roots[..j], i);
    TransferElements(roots[j], SentAfter(roots[..j]));
    var answer := Answer(roots, j);
    if |answer| > 1 {
      assert answer[1] in answer;
      assert answer[1] in Closure(roots[j]);
    }
    TransferIsFresh(roots[j], SentAfter(roots[..j]));
  }

  // ---------------------------------------------------------------- register, then ask

  /** A filename query succeeds exactly if the path is in the closure of a registered file and no
      placeholder for it was registered later; the answer then starts with a file of that path. */
  lemma RegisteredFileIsServed(resolver: SimpleResolver, path: string, sent: set<string>)
    requires resolver.Valid()
    ensures var found := resolver.FindFileByPath(path);
            && (found.Ok? && found.value.File? <==> ResolvedLast(resolver.registered, path))
            && (found.Ok? && found.value.File? ==> Transfer(found.value, sent)[0].path == path)
  {
    hide LastVisit, ResolvedLast, Preorders, Registered, SimpleResolver.Indexed;
    FileQueries(resolver, path);
    LookupIsLastVisit(resolver, path);
    LastVisitResolvedExactly(resolver.registered, path);
  }

  /** The shortest registration after which a query for a resolved file fails. */
  lemma PlaceholderHidesFile(resolver: SimpleResolver, f: File)
    requires resolver.Valid() && resolver.registered == [f, Placeholder(f.path)]
    ensures var found := resolver.FindFileByPath(f.path); !(found.Ok? && found.value.File?)
  {
    hide LastVisit, ResolvedLast, Preorders, SimpleResolver.Indexed;
    RegisteredFileIsServed(resolver, f.path, {});
    ResolvedLastStep([f], Placeholder(f.path), f.path);
    assert [f] + [Placeholder(f.path)] == [f, Placeholder(f.path)];
  }

  /** A symbol query succeeds exactly for declared symbols, and its first element declares the symbol. */
  lemma RegisteredSymbolIsServed(resolver: SimpleResolver, name: string, sent: set<string>)
    requires resolver.Valid()
    ensures var found := resolver.FindDescriptorByName(name);
            && (found.Ok? && found.value.parent.File? <==> exists f :: f in Closures(resolver.registered) && Declares(f, name))
            && (found.Ok? && found.value.parent.File? ==> Declares(Transfer(found.value.parent, sent)[0], name))
  {
    hide Preorders, SimpleResolver.Indexed;
    SymbolQueries(resolver, name);
  }

  /** The same for extensions. */
  lemma RegisteredExtensionIsServed(resolver: SimpleResolver, message: string, number: int, sent: set<string>)
    requires resolver.Valid()
    ensures var found := resolver.FindExtensionByNumber(message, number);
            && (found.Ok? && found.value.parent.File? <==> exists f :: f in Closures(resolver.registered) && Extends(f, message, number))
            && (found.Ok? && found.value.parent.File? ==> Extends(Transfer(found.value.parent, sent)[0], message, number))
  {
    hide Preorders, SimpleResolver.Indexed;
    ExtensionQueries(resolver, message, number);
  }

  /** A right reply serves the request. */
  lemma ReplyServes(resolver: SimpleResolver, r: Request, response: Response, sentBefore: set<string>, services: seq<string>)
    requires resolver.Valid() && IsReply(resolver.Contents(), r, response, sentBefore, services)
    ensures Serves(resolver.registered, services, r, response)
  {
    hide Transfer, ResolvedLast, Preorders, SimpleResolver.Indexed, Closures, Declares, Extends, Mentions, ToProto;
    match r
    case FileByFilename(name) =>
      RegisteredFileIsServed(resolver, name, sentBefore);
      FileQueries(resolver, name);
      FirstIsRoot(RootOf(resolver.Contents(), r), response, sentBefore);
    case FileContainingSymbol(symbol) =>
      RegisteredSymbolIsServed(resolver, symbol, sentBefore);
      FirstIsRoot(RootOf(resolver.Contents(), r), response, sentBefore);
      SymbolQueries(resolver, symbol);
      if response.FileDescriptors? {
        DeclaredIsListed(RootOf(resolver.Contents(), r), response.protos[0], symbol);
      }
    case FileContainingExtension(message, number) =>
      RegisteredExtensionIsServed(resolver, message, number, sentBefore);
      FirstIsRoot(RootOf(resolver.Contents(), r), response, sentBefore);
      ExtensionQueries(resolver, message, number);
      if response.FileDescriptors? {
        ExtensionIsListed(RootOf(resolver.Contents(), r), response.protos[0], message, number);
      }
    case AllExtensionNumbersOfType(name) =>
      NumbersServe(resolver, name, response, sentBefore, services);
    case ListServices =>
      forall n ensures multiset(Visible(services))[n]
                    == if n == "grpc.reflection.v1.ServerReflection" || n == "grpc.reflection.v1alpha.ServerReflection"
                       then 0 else multiset(services)[n]
      {
        VisibleExactly(services, n);
      }
    case UnknownRequest =>
  }

  /** The first descriptor lists the symbol with the kind under which it was found. */
  lemma ReplyListsSymbol(resolver: SimpleResolver, symbol: string, response: Response, sentBefore: set<string>, services: seq<string>)
    requires resolver.Valid() && IsReply(resolver.Contents(), FileContainingSymbol(symbol), response, sentBefore, services)
    ensures response.FileDescriptors? ==>
              && symbol in resolver.descriptors && response.protos != []
              && ListsAs(response.protos[0], resolver.descriptors[symbol].kind, symbol)
  {
    hide Transfer, Preorders, SimpleResolver.Indexed, Closures, Declares, ToProto, IsLatestDeclaring, Describes;
    if response.FileDescriptors? {
      var root := RootOf(resolver.Contents(), FileContainingSymbol(symbol));
      FirstIsRoot(root, response, sentBefore);
      SymbolIsLatest(resolver, symbol);
      SymbolQueries(resolver, symbol);
      DeclaredAsIsListed(root, response.protos[0], resolver.descriptors[symbol].kind, symbol);
    }
  }

  lemma DeclaredAsIsListed(f: File, p: FileProto, kind: Kind, name: string)
    requires Describes(p, f) && DeclaresAs(f, kind, name)
    ensures ListsAs(p, kind, name)
  {
  }

  lemma NumbersServe(resolver: SimpleResolver, name: string, response: Response, sentBefore: set<string>, services: seq<string>)
    requires resolver.Valid() && IsReply(resolver.Contents(), AllExtensionNumbersOfType(name), response, sentBefore, services)
    ensures Serves(resolver.registered, services, AllExtensionNumbersOfType(name), response)
  {
    hide Preorders, SimpleResolver.Indexed, Closures, Extends, Mentions;
    var registered := resolver.registered;
    ExtensionQueries(resolver, name, 0);
    if response.ExtensionNumbers? {
      forall n ensures n in response.numbers <==> exists f :: f in Closures(registered) && Extends(f, name, n) {
        ExtensionQueries(resolver, name, n);
        assert n in response.numbers <==> resolver.FindExtensionByNumber(name, n).Ok?;
      }
    }
  }

  lemma FirstIsRoot(root: File, response: Response, sentBefore: set<string>)
    requires root.File? ==> response.FileDescriptors? && IsEncodingOf(response.protos, Transfer(root, sentBefore))
    ensures root.File? ==> response.protos != [] && Describes(response.protos[0], root)
  {
    hide Transfer, ToProto, Closure;
    if root.File? {
      TransferElements(root, sentBefore);
      ToProtoDescribes(response.protos[0], root);
    }
  }

  lemma DeclaredIsListed(f: File, p: FileProto, name: string)
    requires Describes(p, f) && Declares(f, name)
    ensures exists kind :: ListsAs(p, kind, name)
  {
    DeclaredAsIsListed(f, p, LatestKind(f, name), name);
  }

  lemma ExtensionIsListed(f: File, p: FileProto, message: string, number: int)
    requires Describes(p, f) && Extends(f, message, number)
    ensures HasExtension(p, message, number)
  {
  }

  // ---------------------------------------------------------------- sorting

  function Insert(x: int, s: seq<int>): seq<int> {
    if s == [] || x <= s[0] then [x] + s else [s[0]] + Insert(x, s[1..])
  }

  function Sort(s: seq<int>): seq<int> {
    if s == [] then [] else Insert(s[0], Sort(s[1..]))
  }

  ghost predicate Ascending(s: seq<int>) {
    forall i, j :: 0 <= i < j < |s| ==> s[i] <= s[j]
  }

  lemma {:induction false} InsertPermutes(x: int, s: seq<int>)
    ensures multiset(Insert(x, s)) == multiset(s) + multiset{x}
  {
    if s != [] && x > s[0] {
      InsertPermutes(x, s[1..]);
      assert s == [s[0]] + s[1..];
    }
  }

  lemma {:induction false} InsertKeepsOrder(x: int, s: seq<int>)
    requires Ascending(s)
    ensures Ascending(Insert(x, s)) && Insert(x, s)[0] == if s == [] || x <= s[0] then x else s[0]
  {
    if s != [] && x > s[0] {
      InsertKeepsOrder(x, s[1..]);
    }
  }

  lemma {:induction false} SortSorts(s: seq<int>)
    ensures Ascending(Sort(s)) && multiset(Sort(s)) == multiset(s)
  {
    hide Insert;
    if s != [] {
      SortSorts(s[1..]);
      InsertKeepsOrder(s[0], Sort(s[1..]));
      InsertPermutes(s[0], Sort(s[1..]));
      assert s == [s[0]] + s[1..];
    }
  }

  lemma SortDistinct(s: seq<int>)
    requires NoDup(s)
    ensures forall i, j :: 0 <= i < j < |Sort(s)| ==> Sort(s)[i] < Sort(s)[j]
    ensures forall n :: n in Sort(s) <==> n in s
  {
    SortSorts(s);
    forall n ensures n in Sort(s) <==> n in s {
      assert n in multiset(Sort(s)) <==> n in multiset(s);
    }
    forall i, j | 0 <= i < j < |Sort(s)| ensures Sort(s)[i] < Sort(s)[j] {
      var t := Sort(s);
      if t[i] == t[j] {
        DuplicateCount(t, i, j);
        NoDupCounts(s, t[i]);
        assert false;
      }
    }
  }

  lemma DuplicateCount(s: seq<int>, i: nat, j: nat)
    requires i < j < |s| && s[i] == s[j]
    ensures multiset(s)[s[i]] >= 2
  {
    assert s == s[..i] + [s[i]] + s[i + 1..j] + [s[j]] + s[j + 1..];
  }
}
