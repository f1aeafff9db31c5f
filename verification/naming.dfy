/**
 The names the workspace server derives from a build target
 (lapdev-ws/src/server.rs): the image tag of a target, the folder of a
 workspace or prebuild under its OS user's home, and the folder a
 repository is checked out into.

 A target is a workspace, named by its name, or a prebuild, named by the
 hyphenated text of its UUID. Folders have the shape
 `/home/<osuser>/workspaces/<target>` and the repository sits one level
 below, in `<repo_name>`.
 */
module Naming {
  import Text
  import Uuids

  /** What a build is for. Only the fields the names use are kept. */
  datatype BuildTarget =
    | Workspace(name: string)
    | Prebuild(id: Uuids.Uuid)

  /** The parts of a repository build request that folder names use. */
  datatype RepoBuildInfo = RepoBuildInfo(target: BuildTarget, osuser: string, repoName: string)

  /** The image tag of a target: the workspace name, or the prebuild's UUID text. */
  function RepoTargetImageTag(target: BuildTarget): (tag: string)
    ensures target.Workspace? ==> tag == target.name
    ensures target.Prebuild? ==> |tag| == 36 && '/' !in tag
    ensures target.Prebuild? ==> tag == Uuids.ToHyphenated(target.id)
  {
    match target
    case Workspace(name) => name
    case Prebuild(id) => Uuids.ToHyphenated(id)
  }

  /** Two prebuilds share an image tag exactly when they are the same prebuild. */
  lemma PrebuildTagsDistinct(a: Uuids.Uuid, b: Uuids.Uuid)
    ensures RepoTargetImageTag(Prebuild(a)) == RepoTargetImageTag(Prebuild(b)) <==> a == b
  {
    Uuids.HyphenatedInjective(a, b);
  }

  /** The common stem of every folder of `osuser`. */
  function WorkspacesRoot(osuser: string): string {
    "/home/" + osuser + "/workspaces/"
  }

  /** The folder of a workspace. */
  function WorkspaceFolder(osuser: string, workspaceName: string): (path: string)
    ensures path == WorkspacesRoot(osuser) + workspaceName
  {
    "/home/" + osuser + "/workspaces/" + workspaceName
  }

  /** The folder of a prebuild. */
  function PrebuildFolder(osuser: string, prebuildId: Uuids.Uuid): (path: string)
    ensures path == WorkspacesRoot(osuser) + Uuids.ToHyphenated(prebuildId)
  {
    "/home/" + osuser + "/workspaces/" + Uuids.ToHyphenated(prebuildId)
  }

  /** The folder of a target: the workspace folder for a workspace, the prebuild folder for a prebuild. */
  function TargetFolder(osuser: string, target: BuildTarget): (path: string)
    ensures path == WorkspacesRoot(osuser) + RepoTargetImageTag(target)
  {
    match target
    case Workspace(name) => WorkspaceFolder(osuser, name)
    case Prebuild(id) => PrebuildFolder(osuser, id)
  }

  /**
   The folder a repository is built in: its target's folder, then `/`, then
   the repository name, where the target's segment is the target's image tag.
   */
  function BuildRepoFolder(info: RepoBuildInfo): (path: string)
    ensures path == TargetFolder(info.osuser, info.target) + "/" + info.repoName
    ensures path == WorkspacesRoot(info.osuser) + RepoTargetImageTag(info.target) + "/" + info.repoName
  {
    var target := match info.target
      case Workspace(name) => name
      case Prebuild(id) => Uuids.ToHyphenated(id);
    "/home/" + info.osuser + "/workspaces/" + target + "/" + info.repoName
  }

  /** The OS user and the target segment of a request are single path segments. */
  predicate PlainSegments(info: RepoBuildInfo) {
    '/' !in info.osuser && '/' !in RepoTargetImageTag(info.target)
  }

  /**
   Below the workspaces root, a `/`-free OS user name is told apart: two paths
   under roots coincide exactly when the users and the remainders do.
   */
  lemma RootedPathsDistinct(u1: string, r1: string, u2: string, r2: string)
    requires '/' !in u1 && '/' !in u2
    ensures WorkspacesRoot(u1) + r1 == WorkspacesRoot(u2) + r2 <==> u1 == u2 && r1 == r2
  {
    var w1, w2 := "workspaces/" + r1, "workspaces/" + r2;
    assert WorkspacesRoot(u1) + r1 == "/home/" + (u1 + "/" + w1);
    assert WorkspacesRoot(u2) + r2 == "/home/" + (u2 + "/" + w2);
    Text.CancelPrefix("/home/", u1 + "/" + w1, u2 + "/" + w2);
    Text.SeparatorFixesSplit(u1, w1, u2, w2, '/');
    Text.CancelPrefix("workspaces/", r1, r2);
  }

  /**
   When the OS user and the target tag hold no `/`, the repository folder tells its OS user, target
   tag and repository apart: two requests share a folder exactly when they
   agree on all three.
   */
  lemma BuildRepoFolderInjective(a: RepoBuildInfo, b: RepoBuildInfo)
    requires PlainSegments(a) && PlainSegments(b)
    ensures BuildRepoFolder(a) == BuildRepoFolder(b) <==>
      a.osuser == b.osuser && RepoTargetImageTag(a.target) == RepoTargetImageTag(b.target) && a.repoName == b.repoName
  {
    var ta, tb := RepoTargetImageTag(a.target), RepoTargetImageTag(b.target);
    var ra, rb := ta + "/" + a.repoName, tb + "/" + b.repoName;
    assert BuildRepoFolder(a) == WorkspacesRoot(a.osuser) + ra;
    assert BuildRepoFolder(b) == WorkspacesRoot(b.osuser) + rb;
    RootedPathsDistinct(a.osuser, ra, b.osuser, rb);
    Text.SeparatorFixesSplit(ta, a.repoName, tb, b.repoName, '/');
  }

  /**
   When OS user names hold no `/`, two workspace folders coincide exactly
   when they belong to the same OS user and the same workspace name.
   */
  lemma WorkspaceFoldersDistinct(u1: string, n1: string, u2: string, n2: string)
    requires '/' !in u1 && '/' !in u2
    ensures WorkspaceFolder(u1, n1) == WorkspaceFolder(u2, n2) <==> u1 == u2 && n1 == n2
  {
    RootedPathsDistinct(u1, n1, u2, n2);
  }

  /** Two prebuilds of one OS user never share a folder. */
  lemma PrebuildFoldersDistinct(osuser: string, a: Uuids.Uuid, b: Uuids.Uuid)
    ensures PrebuildFolder(osuser, a) == PrebuildFolder(osuser, b) <==> a == b
  {
    Text.CancelPrefix(WorkspacesRoot(osuser), Uuids.ToHyphenated(a), Uuids.ToHyphenated(b));
    Uuids.HyphenatedInjective(a, b);
  }
}
