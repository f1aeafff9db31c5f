# lapdev-ws core rules in Dafny

This project models the pure rules inside `lapdev-ws`, the workspace server. Each host that runs
developer workspaces runs one. It builds container images for repositories, starts them for a
conductor, and reports when workspaces go idle. Most of the server is I/O plumbing: RPC, `podman`
subprocesses and a Unix-socket HTTP client. Inside that plumbing are a few sequential rules. They
are modelled here as pure functions, and their properties are proved:

- **Compose environment parsing** (`ComposeEnv`). A compose service's `environment` can be a list of
  `KEY=VALUE` strings, which are split at the first `=`. It can also be a map from names to optional
  values, and names without a value are dropped.
- **Inactivity bookkeeping** (`Activity`). Once a minute the server collects the local ports of
  established TCP sockets. A workspace is active when its SSH or IDE port is among them. The server
  asks the conductor to change a workspace's `last_inactivity` only when the stored value disagrees
  with what it observed.
- **Start-up configuration** (`Config`). The configuration file path defaults to
  `/etc/lapdev-ws.conf`. A file that cannot be read or parsed stops start-up. Missing settings take
  fixed defaults: bind `0.0.0.0`, ws port 6123, inter-ws port 6122.
- **Names** (`Naming`, `Uuids`). These are the image tag of a build target and the folders
  `/home/<osuser>/workspaces/<target>[/<repo>]`. A prebuild is named by the hyphenated lower-case
  text of its UUID (RFC 4122, section 3).
- **Compose builds** (`Compose`, `Pairs`). Services are visited in file order and entries without a
  body are skipped. A `build` step takes precedence over an `image`, and a service with neither is an
  invalid repository. Every service is tagged `<tag>:<name>`, and the first failure stops the build.
  The container builds themselves are a function parameter.

External inputs are parameters:
- the socket list the host reports;
- the current time;
- the parsed compose services;
- the result of reading and parsing the configuration file;
- the outcome of each container build.

`Wrappers` holds `Option` and `Result`. `Text` holds the first-separator split and the lemma that a
separator absent from the first part fixes where the split falls.

## Model

| member | source | states |
|---|---|---|
| ComposeEnv.SplitEntry | lapdev-ws/src/server.rs:581-586 | An entry gives a pair exactly when it holds `=`. The name then holds no `=`, and name + `=` + value is the original entry. |
| ComposeEnv.SplitJoin | lapdev-ws/src/server.rs:581-584 | A pair whose name holds no `=` is split back out of its `KEY=VALUE` text unchanged, even when its value holds `=`. |
| ComposeEnv.EnvFromList | lapdev-ws/src/server.rs:578-588 | The list form never yields more pairs than entries, and no yielded name holds `=`. |
| ComposeEnv.EnvFromListKeepsSeparated | lapdev-ws/src/server.rs:578-588 | Joining the parsed pairs back gives exactly the entries that hold `=`, in input order. Only entries without `=` are dropped. |
| ComposeEnv.EnvFromListOfJoinAll | lapdev-ws/src/server.rs:578-588 | Writing pairs with `=`-free names as a list and parsing it gives the same pairs back. |
| ComposeEnv.EnvFromListAppend | lapdev-ws/src/server.rs:578-588 | Parsing works entry by entry. Parsing a concatenation concatenates the results, so the order is kept. |
| ComposeEnv.EnvFromMap | lapdev-ws/src/server.rs:589-592 | The map form keeps a (name, value) pair exactly when the map has that name with that value present. Entries with an absent value are dropped. |
| ComposeEnv.ServiceEnv | lapdev-ws/src/server.rs:573-594 | A list environment gives exactly the list-form pairs. Joined back, they are the entries holding `=`, and no name holds `=`. A map environment gives exactly the map-form pairs. |
| Pairs.KeepPresent | lapdev-ws/src/server.rs:589-592 | Dropping absent entries keeps a (key, value) pair exactly when the input has that key with that value present, and never adds entries. |
| Pairs.KeepPresentKeysDistinct | lapdev-ws/src/server.rs:589-592 | Names that are distinct in the map stay distinct after absent values are dropped. |
| Pairs.KeepPresentAppend | lapdev-ws/src/server.rs:641-642 | Skipping absent entries works entry by entry, so the surviving entries keep their file order. |
| Activity.EstablishedPorts | lapdev-ws/src/server.rs:174-186 | The active ports are 16-bit local port numbers. |
| Activity.EstablishedPortsMeaning | lapdev-ws/src/server.rs:174-186 | A port is active exactly when some established TCP socket has it as its local port. Sockets in other states and UDP sockets count for nothing. |
| Activity.IsActive | lapdev-ws/src/server.rs:189-195 | A workspace is active exactly when some active port is its SSH port or its IDE port. |
| Activity.ActiveOnSockets | lapdev-ws/src/server.rs:181-195 | A workspace is active exactly when an established TCP socket sits on its SSH port or its IDE port. An absent port never makes it active. |
| Activity.InactivityUpdate | lapdev-ws/src/server.rs:197-219 | An update is issued exactly when `last_inactivity` disagrees with the observed activity. It targets that workspace. It clears the field for an active workspace and sets it to `now` for an idle one. |
| Activity.UpdateSettles | lapdev-ws/src/server.rs:197-219 | After the update is applied, the record agrees with the observation. Re-applying the rule with the same ports, at any time, issues no further update. |
| Activity.IdleSinceIsKept | lapdev-ws/src/server.rs:206-218 | An idle workspace keeps the time it was first seen idle. Later rounds do not move it. |
| Activity.RunTask | lapdev-ws/src/server.rs:188-220 | One pass issues at most one update per workspace. Each update is the rule's answer for some workspace, at the time read while visiting it. A pass issues nothing exactly when every workspace is settled. A single workspace gets exactly its own update, or none when settled. |
| Activity.RunTaskAppend | lapdev-ws/src/server.rs:188-220 | A pass over two runs of workspaces issues the first run's updates, then the second's. With the single-workspace clause, the updates are exactly the unsettled workspaces' own updates, in order, without duplicates or drops. |
| Activity.ApplyUpdates | lapdev-ws/src/server.rs:201-217 | Applying updates never changes a workspace's id or ports, and updates for other ids leave it unchanged. |
| Activity.ApplyUpdatesAppend | lapdev-ws/src/server.rs:201-217 | Applying two runs of updates is applying the first, then the second. |
| Activity.SettleAll | lapdev-ws/src/server.rs:188-220 | The reference end state: each workspace after its own update only. Every workspace in it is settled. |
| Activity.RunTaskTargetsOthersNot | lapdev-ws/src/server.rs:201-217 | A pass only issues updates for ids of the workspaces it visits. |
| Activity.RunTaskAppliesOwnUpdate | lapdev-ws/src/server.rs:188-220 | When the running workspaces have distinct ids, applying all of a pass's updates leaves each workspace as its own update alone would. |
| Activity.RunTaskAppliesOwnUpdates | lapdev-ws/src/server.rs:188-220 | When ids are distinct, applying a pass's updates gives exactly the reference end state. |
| Activity.RunTaskIdempotent | lapdev-ws/src/server.rs:188-220 | When ids are distinct and the conductor applies a pass's updates, the next pass with the same active ports issues none, whatever times it reads. |
| Config.ConfigFile | lapdev-ws/src/server.rs:76-78 | The configuration path is the one given on the command line, else `/etc/lapdev-ws.conf`. |
| Config.Resolve | lapdev-ws/src/server.rs:84-86 | A present field is used unchanged. A missing bind becomes `0.0.0.0`, a missing ws port 6123 and a missing inter-ws port 6122. |
| Config.ResolveIsStable | lapdev-ws/src/server.rs:84-86 | Spelling out resolved settings changes nothing, every setting is reachable, and an empty file gives exactly the defaults. |
| Config.ResolveFieldsIndependent | lapdev-ws/src/server.rs:84-86 | Each setting depends only on its own key. |
| Config.LoadSettings | lapdev-ws/src/server.rs:75-86 | Start-up fails with "cannot read" exactly when the file cannot be read, and with "wrong format" exactly when it reads but does not parse. A file that reads and parses yields exactly the resolved settings of that configuration. |
| Naming.RepoTargetImageTag | lapdev-ws/src/server.rs:657-662 | A workspace's tag is its name. A prebuild's tag is the hyphenated text of its UUID, so it has 36 characters and no `/`. |
| Naming.PrebuildTagsDistinct | lapdev-ws/src/server.rs:660 | Two prebuilds share a tag exactly when they are the same prebuild. |
| Naming.WorkspaceFolder | lapdev-ws/src/server.rs:743-745 | A workspace's folder is the OS user's workspaces root followed by the workspace name. |
| Naming.PrebuildFolder | lapdev-ws/src/server.rs:747-749 | A prebuild's folder is the OS user's workspaces root followed by the prebuild's UUID text. |
| Naming.TargetFolder | lapdev-ws/src/server.rs:743-749 | The folder of either kind of target is the workspaces root followed by the target's image tag. |
| Naming.BuildRepoFolder | lapdev-ws/src/server.rs:751-760 | The repository folder is the target's folder (workspace or prebuild), then `/`, then the repository name. Its target segment equals the target's image tag. |
| Naming.BuildRepoFolderInjective | lapdev-ws/src/server.rs:751-760 | Assume the OS user and the target tag hold no `/`. Then two requests share a repository folder exactly when they agree on OS user, target tag and repository name. |
| Naming.RootedPathsDistinct | lapdev-ws/src/server.rs:743-760 | Below the workspaces roots of `/`-free OS users, two paths coincide exactly when the users and the remainders do. |
| Naming.WorkspaceFoldersDistinct | lapdev-ws/src/server.rs:743-745 | For `/`-free OS users, two workspace folders coincide exactly when OS user and workspace name both agree. |
| Naming.PrebuildFoldersDistinct | lapdev-ws/src/server.rs:747-749 | Two prebuilds of one OS user share a folder exactly when they are the same prebuild. |
| Uuids.ToHyphenated | lapdev-ws/src/server.rs:660 | A UUID's text has 36 characters, with hyphens exactly at 8, 13, 18 and 23 and lower-case hex digits elsewhere. It holds no `/`. |
| Uuids.ParseOfHyphenated | lapdev-ws/src/server.rs:660 | Reading a UUID's text back gives the same UUID. |
| Uuids.HyphenatedInjective | lapdev-ws/src/server.rs:748 | Distinct UUIDs have distinct texts. |
| Compose.ToAdvanced | lapdev-ws/src/server.rs:605-611 | A bare build context becomes a long-form step with that context and no Dockerfile name. A long-form step is used as is. |
| Compose.ServicePlan | lapdev-ws/src/server.rs:604-621 | A service has a plan exactly when it has a build step or an image. A build step wins even when an image is also given. Without a build step, an image gives a base-image plan on that image. With neither, the error is `RepositoryInvalid`. |
| Compose.BuildService | lapdev-ws/src/server.rs:596-623 | A service with a plan gives exactly the outcome of building that plan under its tag. A service with neither build nor image fails with `RepositoryInvalid`. |
| Compose.ServiceTag | lapdev-ws/src/server.rs:643 | A service's image tag is the project tag, then `:`, then the service name, and nothing else. |
| Compose.ServiceTagInjective | lapdev-ws/src/server.rs:643 | Under one project tag, distinct service names give distinct `<tag>:<name>` image tags. |
| Compose.Output | lapdev-ws/src/server.rs:646-651 | An output entry carries the service's name, the image tag `<tag>:<name>`, and exactly the environment pairs of the service's form: the list entries split at their first `=`, or the map's present values, each in file order. |
| Compose.BuildPresent | lapdev-ws/src/server.rs:641-653 | The build succeeds exactly when every service builds. On success there is one entry per service, in order, with the name, `<tag>:<name>` and the environment. On failure the error is that of the first service that fails, and all earlier ones built. |
| Compose.BuildCompose | lapdev-ws/src/server.rs:640-654 | Over the file's entries with bodies: success exactly when all of them build, and then one output entry per such service, in file order. On failure, the error is that of the first such service that fails, and all earlier ones built. |
| Compose.BuildComposeCoversServices | lapdev-ws/src/server.rs:641-652 | Each service with a body yields an output entry with its name, image `<tag>:<name>` and its environment. |
| Compose.BuildComposeOutputsFromServices | lapdev-ws/src/server.rs:641-652 | Each output entry is tagged `<tag>:<name>` and carries the environment of a service of that name that has a body. |
| Compose.BuildComposeTagsDistinct | lapdev-ws/src/server.rs:641-652 | When the file names each service once, all built images have distinct tags. |
| Compose.BuildComposeSkipsEmpty | lapdev-ws/src/server.rs:642 | Removing a service entry without a body does not change the build's result. |

## Left out

- Server loops, task spawning and RPC (`run`, `WorkspaceServer::run`, `run_tasks`, `run_inter_ws_service`, `update_build_std_output`): these are concurrency and network plumbing.
- The error exits of `run_task`: no conductor connection, a failed `running_workspaces` call, and a failed socket enumeration. They are network and OS failures. The results of the update calls are ignored in the source, so the model returns the updates as a list.
- Activity.RunTaskIdempotent: assumes the running workspaces have distinct ids, as the conductor's records do. With repeated ids, one workspace's update would reach its namesake.
- Applying an update is modelled by `Activity.Apply`, which stands in for the conductor's database write. The conductor is not part of this model.
- The socket enumeration itself: its result is the `sockets` parameter. The request for IPv4 and IPv6 TCP sockets only is not modelled; the model keeps the source's own TCP/established filter.
- `Utc::now()`: each read is an element of the `clock` parameter of `Activity.RunTask`, one per workspace visited. Timestamps are plain integers.
- Subprocesses and file writes (`su`, `podman`, `useradd`, `id`, `loginctl`, `chown`): these are OS side effects. This covers `os_user_uid`, `_os_user_uid`, `check_podman_socket`, `podman_socket`, `pull_container_image`, `do_build_container_image` and `run_devcontainer_command`.
- Dockerfile generation in `build_container_image_from_base` and Dockerfile lookup in `build_container_image`: they read files and ask podman for image metadata. They stand behind the `Compose.Builder` parameter.
- The Unix-socket HTTP calls (`container_image_info`, `delete_image`, `delete_network`): network I/O.
- `get_devcontainer`, `run_lifecycle_commands` and `run_lifecycle_command`: file reads, JSON5 parsing and command execution.
- Reading and parsing the compose file, and its parent-directory check (`build_compose`, lines 632-639): file I/O and YAML parsing. `Compose.BuildCompose` starts from the parsed services.
- TOML parsing of the configuration file: it is the `parse` parameter of `Config.LoadSettings`.
- ComposeEnv.EnvFromMap: map values are held as the text the compose library's `Display` gives them. Formatting booleans, integers and floats is that library's job.
- Fields of `BuildTarget::Workspace`, `RepoBuildInfo`, `AdvancedBuildStep` and compose `Service` that the modelled rules do not read are left out.
- The other variants of the server's `ApiError` type: its declaration is not part of this model. `Compose.ApiError` keeps `RepositoryInvalid` and `InternalError`, the two that builds end with, and the builder parameter may return either.
- `lapdev-db/src/entities/prebuild.rs` and `lapdev-db/src/entities/quota.rs`: generated table declarations with no behaviour.
- The package's post-installation script is not part of this model: it is shell logic outside the server.
