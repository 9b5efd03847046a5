/** The caching reflection client: it keeps every descriptor received on its stream. */
module ReflectionClient {
  import opened Collections
  import opened ImportGraph
  import opened StreamLifecycle

  datatype ClientError = StreamFailed | MissingDependency

  /** Later descriptors of the same name replace earlier ones. */
  ghost function Fill(cache: map<string, FileProto>, protos: seq<FileProto>): map<string, FileProto> {
    if protos == [] then cache
    else Fill(cache, protos[..|protos| - 1])[protos[|protos| - 1].name := protos[|protos| - 1]]
  }

  /** The linker needs every dependency of every descriptor it is given. */
  ghost predicate Linkable(cache: map<string, FileProto>) {
    forall name, i :: name in cache && 0 <= i < |cache[name].dependencies| ==> cache[name].dependencies[i] in cache
  }

  class ReflectionClient {
    /** A nil Go map and an empty one read alike. */
    var descriptorCache: map<string, FileProto>

    var v1: Option<Id>
    var v1alpha: Option<Id>
    var disconnected: Option<Id>

    ghost var closes: multiset<Id>
    ghost var live: set<Id>
    ghost var streams: nat
    var channels: nat

    ghost function State(): Client
      reads this
    {
      Client(v1, v1alpha, disconnected, closes, live, streams, channels)
    }

    ghost predicate Valid()
      reads this
    {
      Inv(State())
    }

    constructor ()
      ensures Valid() && State() == NEW && descriptorCache == map[]
    {
      descriptorCache := map[];
      v1, v1alpha, disconnected, channels := None, None, None, 0;
      closes, live, streams := multiset{}, {}, 0;
    }

    /** `stream` is the stream a successful dial would create; the two flags say which dials succeed. */
    method GetStream(stream: Id, v1Answers: bool, v1alphaAnswers: bool) returns (res: Option<Id>)
      requires Valid() && stream == streams
      modifies this
      ensures Valid() && State() == Step(old(State()), Event.GetStream(v1Answers, v1alphaAnswers))
      ensures descriptorCache == old(descriptorCache)
      ensures if res.Some? then Current(State()) == {res.value} else !Connected(State())
      // a connected client returns what it has
      ensures old(v1).Some? ==> res == old(v1)
      ensures old(v1).None? && old(v1alpha).Some? ==> res == old(v1alpha)
      ensures old(v1).Some? || old(v1alpha).Some? ==> v1 == old(v1) && v1alpha == old(v1alpha) && disconnected == old(disconnected)
      // any other gets a stream exactly if a dial succeeds, v1 first
      ensures old(v1).None? && old(v1alpha).None? ==>
                && (res.Some? <==> v1Answers || v1alphaAnswers) && (res.Some? ==> res.value == stream)
                && (v1.Some? <==> v1Answers) && (v1alpha.Some? <==> !v1Answers && v1alphaAnswers)
    {
      if v1.Some? {
        return v1;
      }
      if v1alpha.Some? {
        return v1alpha;
      }
      if v1Answers {
        v1 := Some(stream);
        live, streams := live + {stream}, streams + 1;
        disconnected, channels := Some(channels), channels + 1;
        return v1;
      }
      if !v1alphaAnswers {
        return None;
      }
      disconnected, channels := Some(channels), channels + 1;
      v1alpha := Some(stream);
      live, streams := live + {stream}, streams + 1;
      return v1alpha;
    }

    method StreamDisconnected(ghost stream: Id)
      requires Valid() && stream in live
      modifies this
      ensures Valid() && State() == Step(old(State()), Callback(stream))
      ensures !Connected(State()) && !DisconnectedOpen(State()) && descriptorCache == map[]
      ensures disconnected == old(disconnected)
      ensures closes == if disconnected.Some? then old(closes)[disconnected.value := 1] else old(closes)
    {
      if disconnected.Some? {
        assert closes[disconnected.value] == 0;  // closing a closed channel would panic
        closes := closes + multiset{disconnected.value};
      }
      v1, v1alpha := None, None;
      live := live - {stream};
      descriptorCache := map[];
    }

    /** The part of a symbol query after the stream has answered: cache, then link the whole cache. */
    method AllFilesForSymbol(response: Result<seq<FileProto>, ClientError>) returns (res: Result<map<string, FileProto>, ClientError>)
      modifies this`descriptorCache
      ensures response.Err? ==> res.Err? && descriptorCache == old(descriptorCache)
      ensures response.Ok? ==> descriptorCache == Fill(old(descriptorCache), response.value)
      ensures response.Ok? ==> res == if Linkable(descriptorCache) then Ok(descriptorCache) else Err(MissingDependency)
    {
      if response.Err? {
        return Err(response.error);
      }
      var protos := response.value;
      for i := 0 to |protos|
        invariant descriptorCache == Fill(old(descriptorCache), protos[..i])
      {
        assert protos[..i + 1][..i] == protos[..i];
        descriptorCache := descriptorCache[protos[i].name := protos[i]];
      }
      assert protos[..|protos|] == protos;
      var linked := CreateFileDescriptors(descriptorCache);
      res := if linked then Ok(descriptorCache) else Err(MissingDependency);
    }
  }

  /** The linking step, reduced to the check that all dependencies are present. */
  method CreateFileDescriptors(protos: map<string, FileProto>) returns (ok: bool)
    ensures ok <==> Linkable(protos)
  {
    ok := true;
    var todo := protos.Keys;
    while todo != {}
      invariant todo <= protos.Keys
      invariant ok <==> forall name, i :: name in protos && name !in todo && 0 <= i < |protos[name].dependencies|
                                          ==> protos[name].dependencies[i] in protos
    {
      var name := Pick(todo);
      todo := todo - {name};
      ok := ok && forall i :: 0 <= i < |protos[name].dependencies| ==> protos[name].dependencies[i] in protos;
    }
  }

  /** The last descriptor of a name in an answer is cached, and entries that the answer does not mention stay. */
  lemma {:induction false} FillExact(cache: map<string, FileProto>, protos: seq<FileProto>, name: string)
    ensures name in Fill(cache, protos) <==> name in cache || exists i :: 0 <= i < |protos| && protos[i].name == name
    ensures name in Fill(cache, protos) ==>
              (name in cache && Fill(cache, protos)[name] == cache[name] && forall i :: 0 <= i < |protos| ==> protos[i].name != name)
              || exists i :: IsLastNamed(protos, i, name) && Fill(cache, protos)[name] == protos[i]
  {
    if protos != [] {
      var n := |protos| - 1;
      var front := protos[..n];
      FillExact(cache, front, name);
      forall i | 0 <= i < |front| ensures front[i] == protos[i] {}
      if protos[n].name == name {
        assert IsLastNamed(protos, n, name);
      } else if i :| IsLastNamed(front, i, name) && Fill(cache, front)[name] == front[i] {
        assert IsLastNamed(protos, i, name);
      }
    }
  }

  ghost predicate IsLastNamed(protos: seq<FileProto>, i: int, name: string) {
    0 <= i < |protos| && protos[i].name == name && forall j :: i < j < |protos| ==> protos[j].name != name
  }
}
