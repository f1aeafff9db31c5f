/**
 The control flow of building a docker-compose project on the workspace
 server (`build_compose_service` and `build_compose` in
 lapdev-ws/src/server.rs).

 Services are visited in file order; a service entry without a body is
 skipped. Each service is built under the tag `<tag>:<name>`, from its
 `build` step when it has one and otherwise from its base `image`; a service
 with neither is an invalid repository. The first failing service stops the
 whole build. The builds themselves are a parameter of the model.
 */
module Compose {
  import opened Wrappers
  import Text
  import Pairs
  import ComposeEnv

  /** A compose `build` step in its long form; only the fields the server reads are kept. */
  datatype AdvancedBuildStep = AdvancedBuildStep(context: string, dockerfile: Option<string>)

  /** A compose `build` value: a bare context path, or the long form. */
  datatype BuildStep =
    | Simple(context: string)
    | Advanced(step: AdvancedBuildStep)

  /** A compose service, as far as building it is concerned. */
  datatype Service = Service(build: Option<BuildStep>, image: Option<string>, environment: ComposeEnv.Environment)

  /**
   The errors a build can end with: an invalid repository, or an internal
   failure (a file, subprocess or image-service error) passed on unchanged.
   */
  datatype ApiError =
    | RepositoryInvalid(message: string)
    | InternalError(message: string)

  const NoImageOrBuild: string := "can't find image or build in this compose service"

  /** How one service's image is made: from a build step, or on top of a base image. */
  datatype BuildPlan =
    | FromBuildStep(step: AdvancedBuildStep)
    | FromBaseImage(image: string)

  /**
   Builds one image from a plan under a tag: `None` on success, the build's
   error otherwise. It stands for the container builds, which the model does
   not look into.
   */
  type Builder = (BuildPlan, string) -> Option<ApiError>

  /** A bare context path is a long-form step with that context and no Dockerfile name. */
  function ToAdvanced(b: BuildStep): (step: AdvancedBuildStep)
    ensures b.Simple? ==> step == AdvancedBuildStep(b.context, None)
    ensures b.Advanced? ==> step == b.step
  {
    match b
    case Simple(context) => AdvancedBuildStep(context, None)
    case Advanced(step) => step
  }

  /**
   The plan for a service: a build step wins over an image even when both are
   given, an image alone is built upon, and a service with neither is an
   invalid repository.
   */
  function ServicePlan(s: Service): (r: Result<BuildPlan, ApiError>)
    ensures r.Success? <==> s.build.Some? || s.image.Some?
    ensures s.build.Some? ==> r == Success(FromBuildStep(ToAdvanced(s.build.value)))
    ensures s.build.None? && s.image.Some? ==> r == Success(FromBaseImage(s.image.value))
    ensures r.Success? && r.value.FromBaseImage? ==> s.build.None? && s.image == Some(r.value.image)
    ensures r.Failure? ==> r.error == RepositoryInvalid(NoImageOrBuild)
  {
    if s.build.Some? then Success(FromBuildStep(ToAdvanced(s.build.value)))
    else if s.image.Some? then Success(FromBaseImage(s.image.value))
    else Failure(RepositoryInvalid(NoImageOrBuild))
  }

  /** Builds one service under `tag`: `None` on success, the first error otherwise. */
  function BuildService(s: Service, tag: string, builder: Builder): (r: Option<ApiError>)
    ensures r.None? <==> ServicePlan(s).Success? && builder(ServicePlan(s).value, tag).None?
    ensures ServicePlan(s).Success? ==> r == builder(ServicePlan(s).value, tag)
    ensures s.build.None? && s.image.None? ==> r == Some(RepositoryInvalid(NoImageOrBuild))
  {
    match ServicePlan(s)
    case Failure(e) => Some(e)
    case Success(plan) => builder(plan, tag)
  }

  /** The tag of one service's image: the project tag, `:`, the service name. */
  function ServiceTag(tag: string, name: string): (r: string)
    ensures |r| == |tag| + 1 + |name|
    ensures r[..|tag|] == tag && r[|tag|] == ':' && r[|tag| + 1..] == name
  {
    tag + ":" + name
  }

  /** Under one project tag, services with distinct names get distinct image tags. */
  lemma ServiceTagInjective(tag: string, a: string, b: string)
    ensures ServiceTag(tag, a) == ServiceTag(tag, b) <==> a == b
  {
    Text.CancelPrefix(tag + ":", a, b);
    assert ServiceTag(tag, a) == (tag + ":") + a;
    assert ServiceTag(tag, b) == (tag + ":") + b;
  }

  /** One built service as the build output lists it. */
  datatype RepoComposeService = RepoComposeService(name: string, image: string, env: seq<ComposeEnv.EnvPair>)

  /** The output entry of a service that has been built. */
  function Output(entry: (string, Service), tag: string): (r: RepoComposeService)
    ensures r.name == entry.0
    ensures |r.image| == |tag| + 1 + |r.name|
    ensures r.image[..|tag|] == tag && r.image[|tag|] == ':' && r.image[|tag| + 1..] == r.name
    ensures entry.1.environment.List? ==> r.env == ComposeEnv.EnvFromList(entry.1.environment.entries)
    ensures entry.1.environment.List? ==> ComposeEnv.JoinAll(r.env) == ComposeEnv.WithSeparator(entry.1.environment.entries)
    ensures entry.1.environment.KvPair? ==> r.env == ComposeEnv.EnvFromMap(entry.1.environment.pairs)
    ensures entry.1.environment.KvPair? ==> forall p :: p in r.env <==> (p.0, Some(p.1)) in entry.1.environment.pairs
  {
    RepoComposeService(entry.0, ServiceTag(tag, entry.0), ComposeEnv.ServiceEnv(entry.1.environment))
  }

  /** A service that builds without error under its own tag. */
  predicate Builds(entry: (string, Service), tag: string, builder: Builder) {
    BuildService(entry.1, ServiceTag(tag, entry.0), builder).None?
  }

  /** Every one of `services` builds under its own tag. */
  predicate AllBuild(services: seq<(string, Service)>, tag: string, builder: Builder) {
    forall i :: 0 <= i < |services| ==> Builds(services[i], tag, builder)
  }

  /**
   Builds the present services in order, stopping at the first failure. On
   success there is one output entry per service, in order, tagged
   `<tag>:<name>` and carrying the service's environment; on failure the
   error is that of the first service that does not build.
   */
  function BuildPresent(services: seq<(string, Service)>, tag: string, builder: Builder)
    : (r: Result<seq<RepoComposeService>, ApiError>)
    ensures r.Success? <==> AllBuild(services, tag, builder)
    ensures r.Success? ==> (
      && |r.value| == |services|
      && forall i :: 0 <= i < |services| ==> r.value[i] == Output(services[i], tag))
    ensures r.Failure? ==> exists i :: (
      && 0 <= i < |services|
      && BuildService(services[i].1, ServiceTag(tag, services[i].0), builder) == Some(r.error)
      && forall j :: 0 <= j < i ==> Builds(services[j], tag, builder))
  {
    if |services| == 0 then Success([])
    else
      var (name, s) := services[0];
      match BuildService(s, ServiceTag(tag, name), builder)
      case Some(e) => Failure(e)
      case None =>
        var rest := services[1..];
        assert forall i :: 1 <= i < |services| ==> services[i] == rest[i - 1];
        match BuildPresent(rest, tag, builder)
        case Failure(e) =>
          var k :| 0 <= k < |rest|
            && BuildService(rest[k].1, ServiceTag(tag, rest[k].0), builder) == Some(e)
            && forall j :: 0 <= j < k ==> Builds(rest[j], tag, builder);
          assert services[k + 1] == rest[k];
          Failure(e)
        case Success(out) =>
          var all := [Output(services[0], tag)] + out;
          assert forall i :: 1 <= i < |all| ==> all[i] == out[i - 1];
          Success(all)
  }

  /**
   `build_compose` after the compose file has been read and parsed: the
   services of the file, in order, with entries that have no body skipped.
   */
  function BuildCompose(services: seq<(string, Option<Service>)>, tag: string, builder: Builder)
    : (r: Result<seq<RepoComposeService>, ApiError>)
    ensures var present := Pairs.KeepPresent(services);
      r.Success? ==> (
        && |r.value| == |present|
        && forall i :: 0 <= i < |present| ==> r.value[i] == Output(present[i], tag))
    ensures r.Success? <==> AllBuild(Pairs.KeepPresent(services), tag, builder)
    ensures var present := Pairs.KeepPresent(services);
      r.Failure? ==> exists i :: (
        && 0 <= i < |present|
        && BuildService(present[i].1, ServiceTag(tag, present[i].0), builder) == Some(r.error)
        && forall j :: 0 <= j < i ==> Builds(present[j], tag, builder))
  {
    BuildPresent(Pairs.KeepPresent(services), tag, builder)
  }

  /**
   Every service with a body yields an output entry carrying its name, the
   image tag `<tag>:<name>` and its environment.
   */
  lemma BuildComposeCoversServices(services: seq<(string, Option<Service>)>, tag: string, builder: Builder)
    requires BuildCompose(services, tag, builder).Success?
    ensures forall name: string, s: Service :: (name, Some(s)) in services ==>
      Output((name, s), tag) in BuildCompose(services, tag, builder).value
  {
    var present := Pairs.KeepPresent(services);
    var out := BuildCompose(services, tag, builder).value;
    forall name: string, s: Service | (name, Some(s)) in services
      ensures Output((name, s), tag) in out
    {
      assert (name, s) in present;
      var i :| 0 <= i < |present| && present[i] == (name, s);
      assert out[i] == Output((name, s), tag);
    }
  }

  /**
   Every output entry comes from a service with a body: it is tagged
   `<tag>:<name>` and carries the environment of a service of that name.
   Entries without a body yield nothing.
   */
  lemma BuildComposeOutputsFromServices(services: seq<(string, Option<Service>)>, tag: string, builder: Builder)
    requires BuildCompose(services, tag, builder).Success?
    ensures var out := BuildCompose(services, tag, builder).value;
      forall k :: 0 <= k < |out| ==> (
        && out[k].image == ServiceTag(tag, out[k].name)
        && exists s: Service :: (out[k].name, Some(s)) in services && out[k].env == ComposeEnv.ServiceEnv(s.environment))
  {
    var present := Pairs.KeepPresent(services);
    var out := BuildCompose(services, tag, builder).value;
    forall k | 0 <= k < |out|
      ensures out[k].image == ServiceTag(tag, out[k].name)
      ensures exists s: Service :: (out[k].name, Some(s)) in services && out[k].env == ComposeEnv.ServiceEnv(s.environment)
    {
      var e := present[k];
      assert out[k] == Output(e, tag);
      assert e in present;
      assert (e.0, Some(e.1)) in services;
    }
  }

  /** When the compose file names each service once, the built images all have distinct tags. */
  lemma BuildComposeTagsDistinct(services: seq<(string, Option<Service>)>, tag: string, builder: Builder)
    requires BuildCompose(services, tag, builder).Success?
    requires Pairs.KeysDistinct(services)
    ensures var out := BuildCompose(services, tag, builder).value;
      forall i, j :: 0 <= i < j < |out| ==> out[i].image != out[j].image
  {
    var present := Pairs.KeepPresent(services);
    var out := BuildCompose(services, tag, builder).value;
    Pairs.KeepPresentKeysDistinct(services);
    forall i, j | 0 <= i < j < |out|
      ensures out[i].image != out[j].image
    {
      ServiceTagInjective(tag, present[i].0, present[j].0);
    }
  }

  /** A service entry without a body can be removed from the file without changing the build's result. */
  lemma BuildComposeSkipsEmpty(before: seq<(string, Option<Service>)>, name: string,
                               after: seq<(string, Option<Service>)>, tag: string, builder: Builder)
    ensures BuildCompose(before + [(name, None)] + after, tag, builder) == BuildCompose(before + after, tag, builder)
  {
    var empty: seq<(string, Option<Service>)> := [(name, None)];
    assert Pairs.KeepPresent(empty) == [];
    Pairs.KeepPresentAppend(before, empty);
    assert Pairs.KeepPresent(before + empty) == Pairs.KeepPresent(before);
    Pairs.KeepPresentAppend(before + empty, after);
    Pairs.KeepPresentAppend(before, after);
    assert Pairs.KeepPresent(before + empty + after) == Pairs.KeepPresent(before + after);
  }
}
