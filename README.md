# gitzombie, modelled in Dafny

gitzombie manages a developer's workspace of git repositories. It keeps an index of the repositories it has cloned, ranks them by how often and how recently they were used, and runs bulk operations over many repositories at once: importing and cloning, cleaning, running jobs and workflows, and syncing branches.

This project models the sequential, in-memory core of that program and proves properties of the model:

- The repository index (`RepositoryStorage`): a slice of repositories with two lookup indices, one by remote and name and one by path. Adding, deleting, loading and saving all keep the three views consistent. Its frecency score ranks the repositories.
- The jump keyword store, with its expiry rule.
- The task runner (`worker`), its failure report, and the two progress trackers, as sequential state machines.
- Parsers and codecs:
  - the lines of `git branch -vv`;
  - the length-prefixed little-endian codec;
  - the argument vectors of the git commands.
- Planners:
  - the clean command's choice of repositories and its search for empty directories;
  - the selectors of workflows;
  - the import command's ignore filter and clone tasks;
  - the two branch-sync commands;
  - the merge command's options and its edited title and body.
- Small validators and formatters:
  - clone URLs and identities;
  - the job skip rule;
  - template names;
  - error tracing;
  - validation messages;
  - positional arguments with defaults;
  - the command frame that runs a command's hooks.

Each Go file of the core has its own Dafny module, given in the same form as the Go code:

- An object whose methods update its fields is a `class`. Examples are `Storage.RepositoryStorage`, `Tracker.Tracker`, `App.Context` and `BranchSync.SyncData`.
- A loop is a `method`. Its `while` loop carries invariants, and its contract ties the result to a specification function.
- Pure code is a function, and the properties are lemmas about those functions.
- Helper modules model the parts of Go's libraries that the code relies on:
  - `GoStrings`: `strings`, `strconv` and `fmt`;
  - `FilePath`: `path/filepath` on Unix;
  - `Seqs`: filtering and deduplicating sequences;
  - `Sorting`: the in-place sort behind `sort.Slice`;
  - `Wrappers`: `Option` and `Result` over the closed error type of `Errors`.

Everything the program reads from outside is a parameter of the model, never a computation of it. The list is time, the contents of the file system, git's output, the editor, the provider's repository list, `filepath.Match`, `strcase.ToSnake` and the validator library.

Where the code and its own text disagree, the model follows the code:

- The merge editor's instructions say the body is the content "above" the `#` title line. `mergeEditTitleAndBody` takes the lines after it, and so does `Merge.Extract`.

## Model

| member | source | states |
|---|---|---|
| Common.GetDefault | cmd/common/common.go:5-10 | the argument at idx when 0 <= idx < len, def for a negative idx and def for idx >= len |
| Common.Get | cmd/common/common.go:12 | Get(idx) is GetDefault(idx, "") |
| Common.GetPresent | cmd/common/common.go:5-12 | when no argument is empty, Get returns a non-empty string exactly when idx is in range |
| App.ArgDefault | cmd/app/app.go:19-24 | args[idx] for an index in range, def for a negative or too large index |
| App.Arg | cmd/app/app.go:26-28 | Arg is ArgDefault with ""; a non-empty result is one of the arguments |
| App.Context.constructor | cmd/app/app.go:67-70 | a fresh context holds the arguments and no close functions |
| App.Context.OnClose | cmd/app/app.go:34-36 | the function is appended after those registered before it |
| App.Context.Apply | cmd/app/app.go:71-82 | a hook's OnClose calls append its close functions in order; its error is returned |
| App.FirstFailing | cmd/app/app.go:83-88 | the index of the first failing close function: all before it succeed, it fails |
| App.RunE | cmd/app/app.go:66-90 | the steps RunE runs and its error are those of Steps and Outcome: Init, then Run, then the close functions up to the first failure |
| App.RunClosers | cmd/app/app.go:83-89 | the close functions run in registration order up to and including the first that fails, whose error is returned |
| App.FailingInitStopsAll | cmd/app/app.go:71-76 | a failing Init is the only step and its error is the result |
| App.FailingRunSkipsClose | cmd/app/app.go:77-82 | a failing Run returns its error and no close function runs |
| App.AllSucceed | cmd/app/app.go:66-90 | with no failure every close function runs, in order, after the hooks, and RunE succeeds |
| App.Registry.constructor | cmd/app/app.go:54 | the actions map starts empty |
| App.Registry.Register | cmd/app/app.go:91-106 | with no action the command is filed under the first word of Use; otherwise it becomes the next child of the action's parent, created with the lower-cased name and "<action> actions" on first use |
| App.ActionGathersChildren | cmd/app/app.go:96-105 | two commands of a new action become its children in registration order, and no other entry changes |
| Binary.WriteString | pkg/binary/binary.go:9-18 | 4 + len bytes: the little-endian low 32 bits of the length, then the bytes of s |
| Binary.ReadString | pkg/binary/binary.go:20-35 | fails on a stream shorter than the prefix; a success returns exactly as many bytes as the prefix says, taken right after it |
| Binary.WriteInt64 | pkg/binary/binary.go:37-39 | 8 bytes whose little-endian value is i |
| Binary.ReadInt64 | pkg/binary/binary.go:41-45 | succeeds exactly when 8 bytes are there; the value is below 2^64 and the rest follows the 8 bytes |
| Binary.ReadFull | pkg/binary/binary.go:22-25 | the fixed-size read behind binary.Read: succeeds exactly when n bytes are there, and splits the stream |
| Binary.ReadSome | pkg/binary/binary.go:26-30 | one Read call: fails only when bytes are requested from an empty stream, and returns as many as are there |
| Binary.FromLittleEndianOf | pkg/binary/binary.go:11-12 | decoding the little-endian bytes of a number that fits gives it back |
| Binary.StringRoundTrip | pkg/binary/binary.go:9-35 | ReadString over WriteString(s) + rest returns s and leaves rest, for len(s) < 2^32 |
| Binary.ShortStringFails | pkg/binary/binary.go:27-33 | a stream with fewer bytes than its prefix promises fails with "expect to read N data, but read M" |
| Binary.TruncatedPrefixFails | pkg/binary/binary.go:21-25 | a truncated length prefix is EOF or unexpected EOF, and no string |
| Binary.Int64RoundTrip | pkg/binary/binary.go:37-45 | every uint64 written and read back comes back, and the rest of the stream is left |
| Errors.Trace | pkg/errors/errors.go:22-32 | a traced error gets the op appended to its ops; any other error is wrapped with the op as its only op; the shape with one level of wrapping is kept |
| Errors.TraceOpt | pkg/errors/errors.go:22-25 | nil stays nil; a non-nil error is traced |
| Errors.Out | pkg/git/errors.go:27-29 | only git and job errors have Out(); a git error's is its stderr |
| Errors.TraceFreshMessage | pkg/errors/errors.go:31-37 | tracing an untraced error gives "<op>: <message>" |
| Errors.TraceTracedMessage | pkg/errors/errors.go:27-37 | tracing a traced error lists the new op after the earlier ones, joined by ": ", then the cause's message |
| Errors.TraceTwiceMessage | pkg/errors/errors.go:22-37 | two traces of a plain error read "<first>: <second>: <message>" |
| Errors.TraceKeepsExtra | pkg/errors/errors.go:39-43 | a traced error's Extra prints its cause's Extra when the cause has one, and nothing otherwise |
| Errors.TraceHidesOut | pkg/errors/errors.go:13-16 | a traced error has no Out() |
| GitCommands.FullArgs | pkg/git/commands.go:37-39 | "-C <path>" comes before the arguments exactly when a path is set; the arguments are otherwise unchanged |
| GitCommands.Output | pkg/git/commands.go:36-74 | success exactly when git succeeds, with its stdout trimmed; a failure is a git error carrying git's error, the command line, the quiet flag, and the stderr text only when stderr was captured |
| GitCommands.Exec | pkg/git/commands.go:76-79 | no error exactly when Output succeeds, and Output's error otherwise |
| GitCommands.Clone | pkg/git/commands.go:101-103 | git is run with "clone <url> <path>"; it fails exactly when git does, with git's error and that command line |
| GitCommands.SetRemoteURL | pkg/git/commands.go:105-107 | git is run with "remote set-url <remote> <url>"; it fails exactly when git does, with git's error and that command line |
| GitCommands.Config | pkg/git/commands.go:109-111 | git is run with "config <name> <value>"; it fails exactly when git does, with git's error and that command line |
| GitCommands.Items | pkg/git/commands.go:86-97 | with NoTrimLines the raw lines; otherwise each line trimmed, the blank ones dropped |
| GitCommands.OutputItems | pkg/git/commands.go:81-99 | Output's error, or the lines Items keeps from the output |
| GitCommands.TrimmedItems | pkg/git/commands.go:90-97 | the loop keeps exactly the non-blank trimmed lines, in order |
| GitCommands.ListRemotes | pkg/git/commands.go:113-115 | the items of `git remote` |
| GitCommands.CheckoutArgs | pkg/git/commands.go:117-124 | "checkout", then "-b" exactly when creating, then the name last |
| GitCommands.Checkout | pkg/git/commands.go:117-124 | git is run with CheckoutArgs; it fails exactly when git does, with git's error and that command line |
| GitCommands.FetchArgs | pkg/git/commands.go:139-148 | "fetch <remote>", "--prune" when branches are pruned, "--prune-tags" last when tags are |
| GitCommands.Fetch | pkg/git/commands.go:139-148 | git is run with FetchArgs; it fails exactly when git does, with git's error and that command line |
| GitCommands.EnsureNoUncommitted | pkg/git/commands.go:126-137 | no error exactly when `git status -s` gives no item; otherwise the items make an uncommitted-change error; a failing git is passed on |
| GitCommands.MainBranchOf | pkg/git/commands.go:159-166 | "main branch is empty" for empty output; "invalid ref" with the quoted output when it is not under refs/remotes/<remote>/; otherwise the branch whose full reference is the output |
| GitCommands.GetMainBranch | pkg/git/commands.go:150-167 | asks for the symbolic reference of refs/remotes/<remote>/HEAD and reads it with MainBranchOf; a failing git is passed on |
| GitCommands.MainBranchRoundTrip | pkg/git/commands.go:162-165 | a branch under the remote's reference is read back as itself |
| GitCommands.ItemsAreTrimmedLines | pkg/git/commands.go:91-96 | every kept item is non-blank and is the trimmed form of one of git's lines |
| GitCommands.NoItemsIffBlank | pkg/git/commands.go:131 | nothing is kept exactly when every trimmed line is blank, so EnsureNoUncommitted passes exactly then |
| GitBranch.NextField | pkg/git/branch.go:125-132 | a blank string has no first field (the index panic); one field returns the string whole; otherwise the first field and the other fields joined by single spaces |
| GitBranch.FirstEnding | pkg/git/branch.go:110-116 | the first field ending with the terminator, or the number of fields |
| GitBranch.NextRangeField | pkg/git/branch.go:106-123 | the loop computes RangeSplit: the fields up to the terminating one and the fields after it |
| GitBranch.StatusOf | pkg/git/branch.go:70-88 | "deleted" exactly when the description says gone; otherwise conflict for ahead and behind, ahead, behind, or sync, each exactly under its condition |
| GitBranch.InvalidLine | pkg/git/branch.go:34-36 | the error text quotes the raw line |
| GitBranch.ParseBranch | pkg/git/branch.go:32-99 | a success is current exactly when the line starts with "*" and has a non-empty name; without an upstream description it has no remote and the status detached (a parenthesised name) or none; with one it has a non-empty remote and one of the five tracking statuses; a failure is the index panic or one of the three invalid-line complaints quoting the raw line |
| GitBranch.ParseAfterName | pkg/git/branch.go:52-98 | a success keeps the given current flag and name; without an upstream the remote is empty and the status detached or none as the name was found; with one the remote is non-empty and the status one of the five tracking statuses; a failure is the panic or a complaint quoting the raw line |
| GitBranch.ParseUpstream | pkg/git/branch.go:54-91 | a success keeps the current flag, name and commit, tracks a non-empty remote and has one of the five tracking statuses; a failure is the panic or a complaint quoting the raw line |
| GitBranch.ParseBranchFields | pkg/git/branch.go:32-52 | a line whose unstarred text has no name field is the index panic; a success's name is the unstarred line's first field (a detached head's parenthesised run) and its commit the next field; a non-empty name hands the rest to ParseAfterName with the "*" and "(" flags of the line |
| GitBranch.AfterNameFields | pkg/git/branch.go:52-98 | no commit field is the index panic; a success's commit is the next field; it tracks an upstream exactly when the text after the commit starts with "["; the message is that text without an upstream, and what follows the "]"-terminated description with one |
| GitBranch.UpstreamFields | pkg/git/branch.go:54-91 | the parse fails exactly when the description between the brackets is empty, has no field, or its first field is only ":"; otherwise the remote is that field without its ":", the status is StatusOf the rest of the description, and the message what follows the bracket |
| GitBranch.ParseBranchDetail | pkg/git/branch.go:32-99 | the imperative parse computes ParseBranch, so every field it fills in is the one ParseBranch, ParseBranchFields, AfterNameFields and UpstreamFields give, as ParseTrackingLine and ParsePlainLine state for whole lines |
| GitBranch.ParseTrackingLine | pkg/git/branch.go:32-99 | a current branch tracking an upstream, "* <name> <commit> [<upstream>: <status words>] <message words>", parses to that name and commit, current, with the upstream as its remote, StatusOf the status words, and the message words single-spaced |
| GitBranch.ParsePlainLine | pkg/git/branch.go:32-99 | a branch without an upstream, "  <name> <commit> <message words>", parses to that name and commit, not current, no remote, status none, and the message words |
| GitBranch.ListLocalBranches | pkg/git/branch.go:134-149 | git's error, or every line parsed in order with the first failing line's error |
| GitBranch.ListRemoteBranches | pkg/git/branch.go:151-178 | every returned name is a "<remote>/<name>" line of git's output, not tracked by a local branch and not the HEAD alias, in output order |
| GitBranch.ListLocalBranchNames | pkg/git/branch.go:180-193 | the names of the branches, in order, the current one only when asked for |
| GitBranch.ParseAllOk | pkg/git/branch.go:139-148 | a successful list has one detail per line, each that line's parse |
| GitBranch.ParseAllFirstError | pkg/git/branch.go:141-144 | the parse fails with the error of the first line that does not parse |
| GitBranch.RemoteNamesSound | pkg/git/branch.go:164-176 | every kept name comes from an untracked "<remote>/" line and is not the HEAD alias |
| GitBranch.RangeSplitClosed | pkg/git/branch.go:106-123 | when a field ends with the terminator the element ends with it, and element and remainder are the fields again |
| Repository.Normalize | core/repository.go:80-93 | succeeds exactly when path, name and remote are non-empty and the name has a non-empty group; then group and base are SplitGroup's; otherwise "repository data is invalid" or the missing-group message |
| Repository.AttachRepository | core/repository.go:58-70 | succeeds exactly when the path, the slash-trimmed name and the remote are non-empty and the name has a group; then a normalized repository at the path with that name, group and base, not at its default location and never accessed; a failure is normalize's error ("repository data is invalid" or the missing-group message) traced with "normalize repository" |
| Repository.WorkspaceRepository | core/repository.go:47-56 | succeeds exactly when attaching at workspace/remote/name does, and marks the repository as sitting at its default location there |
| Repository.MarkAccess | core/repository.go:131-134 | one more access, wrapping at 2^64, and the access time set to now; nothing else changes |
| Repository.Score | core/repository.go:156-177 | a uint64: the product wraps |
| Repository.SortRepositories | core/repository.go:179-186 | the array is a permutation of what it held, with scores non-increasing |
| Repository.ConvertToGroups | core/repository.go:514-526 | the loop computes GroupList: each group once, in order of first appearance, with a trailing "/" |
| Repository.SplitGroupNoSlash | core/repository.go:20-24 | a name without "/" has no group and is its own base |
| Repository.SplitGroupBase | core/repository.go:25-27 | the base of a name with "/" holds no "/" and ends the name |
| Repository.SplitGroupRoundTrip | core/repository.go:20-28 | for a name of plain pieces, group + "/" + base is the name again and the group is not empty |
| Repository.NormalizedParts | core/repository.go:80-93 | a repository normalize accepts has SplitGroup's group and base, a non-empty group, and non-empty path, name and remote |
| Repository.NormalizeIdempotent | core/repository.go:80-93 | normalizing a normalized repository changes nothing |
| Repository.ScoreFavoursRecent | core/repository.go:156-177 | for the same access count a later access never scores less |
| Repository.ScoreBuckets | core/repository.go:136-177 | zero for an access not in the past; otherwise access times 16, 8, 2 or 1 for up to an hour, a day, a week, or more, bounds inclusive |
| Repository.MarkAccessScoresZeroNow | core/repository.go:131-161 | a repository accessed now scores zero within the same second |
| Repository.WithSlashInjective | core/repository.go:523 | the trailing "/" keeps different groups apart |
| Repository.GroupListComplete | core/repository.go:514-526 | every repository's group is listed, only those groups are listed, and none twice |
| RepoIndex.PathAmongIff | core/repository.go:272 | the recursive path check is "some earlier repository has this path" |
| RepoIndex.NameAmongIff | core/repository.go:285 | the recursive name check is "some earlier repository has this remote and name" |
| RepoIndex.DuplicateSticks | core/repository.go:271-292 | once the loop has met a duplicate, later repositories do not change which one is reported |
| RepoIndex.PermutationNormalized | core/repository.go:270 | sorting keeps every repository normalized |
| RepoIndex.PathLookupUpTo | core/repository.go:271-292 | while indexing, the path index holds exactly the paths seen so far |
| RepoIndex.NameLookupUpTo | core/repository.go:271-292 | while indexing, the name index holds exactly the remotes and names seen so far |
| RepoIndex.PathLookup | core/repository.go:417-425 | in a consistent storage the path index answers exactly for stored paths, with the repository stored there |
| RepoIndex.NameLookup | core/repository.go:427-433 | in a consistent storage the name index answers exactly for stored remotes and names, with the repository stored under them |
| RepoIndex.BuildStepAt | core/repository.go:271-292 | one loop step: a taken path is reported first, then a taken name; otherwise the repository is indexed and the indices describe one more repository |
| RepoIndex.IndexOfConsistent | core/repository.go:271-292 | indexing a duplicate-free prefix one repository at a time gives indices describing exactly that prefix |
| RepoIndex.IndexStep | core/repository.go:272-291 | the loop step in terms of the indices built so far |
| RepoIndex.InsertAt | core/repository.go:376-383 | indexing a repository whose name and path are free makes the indices describe one more repository |
| RepoIndex.InsertConsistent | core/repository.go:359-386 | appending a repository whose name and path are free keeps the storage consistent and makes its name find it |
| RepoIndex.DeleteConsistent | core/repository.go:388-409 | deleting a stored repository by its own remote, name and path keeps the storage consistent |
| RepoIndex.DeleteKeepsValid | core/repository.go:388-409 | deletion keeps every repository normalized and the three views consistent |
| RepoIndex.KeptIsApart | core/repository.go:396-408 | a repository Delete keeps has another path and is still found under its own name |
| RepoIndex.NameRemoveOther | core/repository.go:404-407 | removing one remote and name leaves every other name entry |
| RepoIndex.ApartIsPairwise | core/repository.go:271-292 | "no two of the first n collide" for the whole slice is pairwise apartness |
| RepoIndex.FirstDuplicateInNoneIffApart | core/repository.go:271-292 | the loop meets no duplicate among the first n exactly when no two of them share a path or a remote and name |
| RepoIndex.FirstDuplicateNoneIffApart | core/repository.go:271-294 | init reports a duplicate exactly when two repositories share a path or a remote and name |
| Storage.ReadOne | core/repository.go:304-313 | an empty stored path becomes workspace/remote/name and marks a workspace repository; a stored path is kept; the result is normalized with the stored name and remote |
| Storage.ReadAll | core/repository.go:304-315 | one repository per record, each the reader's result for that record |
| Storage.ReadRepos | core/repository.go:297-316 | every record read with ReadOne, in order |
| Storage.RepositoryStorage.constructor | core/repository.go:233-237 | an empty, writable storage with empty indices, which is consistent |
| Storage.RepositoryStorage.GetByName | core/repository.go:411-433 | in a consistent storage, found exactly when some stored repository has that remote and name, and it is that one |
| Storage.RepositoryStorage.GetByPath | core/repository.go:417-425 | in a consistent storage, found exactly when some stored repository has that path; otherwise the error asking to attach first |
| Storage.RepositoryStorage.Init | core/repository.go:245-295 | a missing file is an empty storage; an open failure is traced; decode, normalize and duplicate failures are parse errors naming the data file, a duplicated path reported with the corrected message of the Findings row for core/repository.go:275; on success the repositories are a permutation of the records sorted by score and the storage is consistent |
| Storage.Load | core/repository.go:257-270 | read's error, or the read repositories permuted into non-increasing score, all normalized |
| Storage.Read | core/repository.go:297-316 | the loop gives ReadRepos' repositories or its first error |
| Storage.RepositoryStorage.BuildIndices | core/repository.go:271-294 | fails exactly when FirstDuplicate finds a duplicate, with that duplicate's parse error (a duplicated path with the corrected message); otherwise the indices describe the repositories |
| Storage.RepositoryStorage.List | core/repository.go:318-329 | the repositories of the remote, or all for "", in stored order |
| Storage.RepositoryStorage.Add | core/repository.go:359-386 | a normalize error is traced; a taken name or path is an error naming the holder and changes nothing; otherwise the normalized repository is appended and both GetByName and GetByPath find it, and the storage stays consistent |
| Storage.RepositoryStorage.Delete | core/repository.go:388-409 | an empty storage is untouched; otherwise every entry with the remote and name is dropped with the others kept in order, the name and path entries are removed, and consistency is kept |
| Storage.RepositoryStorage.DeleteAll | core/repository.go:439-452 | a failing stat or removal returns its error and leaves the storage unchanged; otherwise it deletes as Delete does |
| Storage.RepositoryStorage.ReadOnly | core/repository.go:435-437 | sets read-only and nothing else |
| Storage.RepositoryStorage.Close | core/repository.go:335-357 | a read-only storage writes nothing; an open failure is traced; otherwise workspace repositories lose their path in place and the records written are Persist of the repositories |
| Storage.IndexAll | core/repository.go:271-292 | the loop stops at FirstDuplicate's duplicate; without one the indices describe every repository |
| Storage.Without | core/repository.go:395-402 | the loop keeps exactly the entries without the remote and name, in order |
| Storage.ReadErrorSticks | core/repository.go:310-313 | the first failing record decides read's error |
| Storage.ReadErrorPrefix | core/repository.go:304-314 | a failing prefix decides read's error whatever follows |
| Storage.ClearedPersistsSame | core/repository.go:350-356 | clearing paths in place and then encoding writes the same records as Persist |
| Storage.ReadOneStored | core/repository.go:304-354 | a saved normalized record reads back as the repository when a workspace one sits at its default location |
| Storage.ReadAllOk | core/repository.go:304-315 | read succeeds with the repositories every record reads as |
| Storage.StoreRoundTrip | core/repository.go:297-357 | saving then loading gives the repositories back, when workspace repositories sit at their default location |
| Storage.LoadRoundTrip | core/repository.go:297-357 | loading then saving writes back the same records |
| Storage.DuplicatePathAsWrittenIgnoresRepo | core/repository.go:272-276 | the message as written is the same for every duplicated path and differs from the intended one |
| Storage.DuplicatePathNamesRepo | core/repository.go:272-276 | the corrected message tells duplicated paths apart |
| Jump.Fresh | core/jump.go:39-64 | exactly the entries that are not out of date, with their stamps |
| Jump.JumpKeywordStorage.constructor | core/jump.go:28-31 | an empty map and the clock reading taken once |
| Jump.JumpKeywordStorage.Init | core/jump.go:83-104 | a missing file leaves the map empty without error; an open failure is traced; a decode failure is a parse error naming the file; otherwise the map is the decoded one |
| Jump.JumpKeywordStorage.Add | core/jump.go:47-51 | the keyword is stamped with the store's now, overwriting an earlier stamp; other keys are unchanged |
| Jump.JumpKeywordStorage.List | core/jump.go:53-67 | the map keeps only fresh entries, and the result is its keys, each once, sorted ascending |
| Jump.JumpKeywordStorage.Close | core/jump.go:106-119 | an empty map writes nothing and succeeds; an open failure is traced; otherwise the map goes to the encoder |
| Jump.SortStrings | core/jump.go:65 | a sorted permutation of the keywords |
| Jump.StringOrder | core/jump.go:65 | the byte-wise string order is total and transitive |
| Jump.AddedIsOutDate | core/jump.go:40-50 | a keyword stamped with the store's own now is out of date at once |
| Jump.ListAfterAdd | core/jump.go:47-64 | a List after an Add in the same session drops the added keyword and keeps every other fresh one |
| Jump.RecentIsKept | core/jump.go:39-45 | a stamp strictly in the past and less than a day old is kept |
| Jump.FreshIdempotent | core/jump.go:53-64 | listing twice leaves the same map as listing once |
| Jump.ListedStrictlyIncreasing | core/jump.go:57-66 | the listed keywords are strictly increasing |
| Remote.MatchGroup | core/remote.go:121-128 | the first group named like the repository's group; none exactly when no group has that name |
| Remote.GetCloneURL | core/remote.go:94-107 | with the group's protocol when it sets one, else the remote's: "https://<host>/<name>.git" for https, "git@<host>:<name>.git" for ssh, and "invalid protocol <p>" exactly for any other |
| Remote.GetUserEmailAsWritten | core/remote.go:109-119 | panics exactly when no group matches the repository |
| Remote.GetUserEmail | core/remote.go:109-119 | the remote's user and email, each replaced by the matched group's when that is non-empty; a repository outside every group keeps the remote's |
| Remote.GetUserEmailAgrees | core/remote.go:109-119 | wherever the written code does not panic the two agree |
| Remote.GetUserEmailPanicsWithoutGroups | core/remote.go:111-112 | a remote without groups makes the written code panic for every repository |
| Remote.RepoEnv | core/repository.go:110-115 | the six REPO_ variables are set to the repository's name, group, base, remote, path and directory; every other variable is kept |
| Remote.SetEnv | core/repository.go:109-129 | without a remote only the REPO_ variables; an unusable protocol is traced with "get clone url" after they are set; otherwise REMOTE_USER, REMOTE_EMAIL and REMOTE_URL are added with the remote's identity and clone URL |
| Remote.SetEnvSwapsIdentity | core/repository.go:117-125 | the written SetEnv panics for a repository in no group of the remote, with only the REPO_ variables set; for one in a group it passes an unusable protocol's error on, and otherwise puts the email in REMOTE_USER and the user in REMOTE_EMAIL, unlike the intended SetEnv whenever the two differ |
| Remote.ListRemoteNames | core/remote.go:68-92 | a missing directory gives no names and no error; another read failure is traced; otherwise the non-empty stems of the ".toml" files that are not directories, in directory order |
| Remote.RemoteNamesAreFiles | core/remote.go:78-90 | every listed name is non-empty and "<name>.toml" is a file of the directory |
| Job.Skip | core/job.go:79-90 | skips exactly when some required variable is unbound, and then names the first unbound one; otherwise the key is "" |
| Job.GetJobPath | core/job.go:42-52 | the check's error, "cannot find job <name>" for a missing file, or the script's path |
| Job.Cmd | core/job.go:100-137 | `bash -c <run>` for an inline job, else `bash <script>` with the script lookup's error; a non-empty root must exist (a failing check is traced, a missing root is an error) and becomes the working directory; the environment is passed exactly when it is non-empty |
| Job.Execute | core/job.go:54-77 | a skipped job succeeds without a command; otherwise Cmd's error, or a failing run as a job error holding the name, the root, the cause and the captured output |
| Job.WrapJobCmdError | core/job.go:139-144 | the fixed message for a job error, "failed to execute job: <err>" for any other |
| Job.SkippedJobRunsNothing | core/job.go:54-58 | a skipped job's result does not depend on the script, the root or the command runner |
| Job.FailedJobKeepsOutput | core/job.go:23-75 | a failing job's Out() is the captured output and its message is "failed to execute job <name> on <root>: <err>" |
| Job.InlineJobIgnoresScript | core/job.go:101-110 | an inline job's command does not depend on finding a script file |
| Workflow.ParseSelector | core/workflow.go:117-135 | without ":" the whole text is the remote with pattern "*"; otherwise the remote is the text before the first ":" and the pattern all after it, "*" when that is empty |
| Workflow.SplitNoColon | core/workflow.go:119-123 | one piece means the selector has no ":" |
| Workflow.SplitHead | core/workflow.go:125-127 | the first piece is the text before the first ":" and the rejoined tail is all after it |
| Workflow.ParseSelectorRoundTrip | core/workflow.go:117-135 | "remote:pattern" parses back into that remote and pattern |
| Workflow.PrefixWithoutColon | core/workflow.go:119 | the remote before the first ":" is unique |
| Workflow.PatternFilter | core/workflow.go:101-110 | succeeds exactly when the pattern is well formed for every name, keeping the matching repositories in order; otherwise the error of the first name it is malformed for |
| Workflow.PatternFilterErrPersists | core/workflow.go:103-106 | once a name fails, later repositories do not change the error |
| Workflow.FilterByPattern | core/workflow.go:101-110 | the loop computes PatternFilter |
| Workflow.SelectorMatchAsWritten | core/workflow.go:99-112 | a success is the remote's whole list, whatever the pattern; it fails exactly when the filter does |
| Workflow.SelectorMatch | core/workflow.go:99-112 | the repositories of the remote (all for "") whose names the pattern matches; it fails exactly when the pattern is malformed for some name |
| Workflow.SelectorMatchIgnoresPattern | core/workflow.go:107-111 | a pattern matching nothing still selects the whole remote as written, and nothing as intended |
| Workflow.RepoMatch | core/workflow.go:99-112 | lists the store and filters it as SelectorMatch says |
| Workflow.RepoMatchAsWritten | core/workflow.go:99-112 | lists the store and returns it as SelectorMatchAsWritten says |
| Workflow.ParseSelectors | core/workflow.go:115-136 | every selector parsed, in order |
| Workflow.MatchRepos | core/workflow.go:114-147 | each selector's matches appended in order, stopping at the first error, with the corrected repository selector of the Findings row for core/workflow.go:111 |
| Workflow.DirPaths | core/workflow.go:151-185 | after dropping the scan mark and expanding variables: a failing check is traced, a missing directory is an error; without the mark it must be a git directory and is the only place; with it, the repositories found under it with "/" and "*" trimmed are |
| Workflow.MatchDirs | core/workflow.go:149-187 | every selector's places in order, stopping at the first error |
| Workflow.RepoItem | core/workflow.go:50-67 | the repository's path and itself, with REPO_NAME and REPO_PATH set by the intended SetEnv; a remote that cannot be read is traced with "get remote" |
| Workflow.UniqueByPath | core/workflow.go:82-90 | the kept paths are the distinct paths in order of first appearance, and every kept item is one of the items |
| Workflow.Unique | core/workflow.go:82-91 | the loop computes UniqueByPath |
| Workflow.ItemsOfRepos | core/workflow.go:50-68 | each repository's place in order, stopping at the first error |
| Workflow.ItemsOfDirs | core/workflow.go:75-80 | a place without environment per directory |
| Workflow.Match | core/workflow.go:43-92 | the repository selectors' error, then the directory selectors' error; otherwise the repository places then the directory places, each path at its first appearance; the repository selectors are the corrected ones |
| Workflow.UniquePlaces | core/workflow.go:82-90 | no path is listed twice and every selected path is listed |
| Workflow.PlaceListed | core/workflow.go:84-89 | each item's path is among the kept items |
| Workflow.RepositoryWinsOverDirectory | core/workflow.go:43-90 | a directory that is also a selected repository's path runs once, as the repository |
| Template.TemplatePath | core/template.go:19-45 | an empty name, a name outside [a-zA-Z0-9_-]+, a failing templates directory, a failing check, a missing template to get or an existing one to create are each their own error; otherwise the template's directory under the base |
| Template.GetAndCreateExclusive | core/template.go:38-43 | getting and creating a template never both succeed on the same directory state |
| Template.ValidNameIsPlainElement | core/template.go:17-33 | a valid name is one path element, neither "." nor "..", so the template sits right under the base |
| Template.Pairs | core/template.go:116-118 | one pending entry per directory entry, each with the directory's place |
| Template.StackAppend | core/template.go:99-140 | the files, failures and size of two stacks add up |
| Template.PairsSum | core/template.go:116-118 | pushing a directory's entries pushes exactly that directory's files and failures |
| Template.PopFile | core/template.go:122-139 | popping a readable file records it under its path relative to the root and keeps the walk's invariant |
| Template.PopDir | core/template.go:111-119 | popping a readable directory pushes its entries and keeps the walk's invariant |
| Template.PopFailed | core/template.go:107-131 | a failing stat, read or open at the top of the stack means the template has a failure |
| Template.TopEntries | core/template.go:89-96 | the root's entries go on the stack, except a ".git" directory |
| Template.FindTemplateFiles | core/template.go:80-142 | an unreadable root is traced; an empty one has no files; otherwise it succeeds exactly when nothing in the tree fails, and then finds exactly the template's files, named relative to the root |
| Template.GitUnderSubFiles | core/template.go:89-96 | the files of a directory holding ".git/config" |
| Template.NestedGitIsWalked | core/template.go:90-118 | only the root's own ".git" is skipped; one deeper is walked |
| Template.ListTemplates | core/template.go:192-206 | the read error as it is, or the names of the directory entries in listing order, and only those |
| Template.DirNames | core/template.go:199-204 | a name is listed exactly when some entry is a directory with that name |
| Worker.EffectiveCount | pkg/worker/worker.go:52-54 | a positive count is kept, any other becomes the number of CPUs; the result is at least 1 |
| Worker.Task.constructor | pkg/worker/worker.go:21-29 | a task starts neither done nor failed, with the caller's name, value and action |
| Worker.LogFile | pkg/worker/worker.go:116-119 | LogPath when set, otherwise temp/gitzombie/logs/<name>; never empty |
| Worker.JobTracker.constructor | pkg/worker/tracker.go:34-38 | nothing running, nothing done, no total, the given verb |
| Worker.JobTracker.Render | pkg/worker/tracker.go:40-46 | sets the total and the counter width to the number of digits of the total; nothing else changes |
| Worker.JobTracker.Add | pkg/worker/tracker.go:110-114 | the task joins the end of the running list; nothing else changes |
| Worker.JobTracker.Tick | pkg/worker/tracker.go:49-108 | finished tasks leave the running list and are counted; the frame moves up over the previous running lines, prints the finished tasks numbered on from the counter and then the running ones; the goroutine stops once the counter reaches the total |
| Worker.SplitDone | pkg/worker/tracker.go:67-76 | the done tasks and the others, each in list order |
| Worker.NumberDone | pkg/worker/tracker.go:87-100 | one line per done task, numbered on from the counter |
| Worker.ListRunning | pkg/worker/tracker.go:102-106 | one line per running task with the verb |
| Worker.Worker.constructor | pkg/worker/worker.go:42-49 | holds the name, tasks, tracker and log path |
| Worker.Worker.Run | pkg/worker/worker.go:51-99 | every task is handed to the tracker and run once with its own action or the shared one; afterwards each is done and failed exactly when it was or its run failed; no failure means no error; otherwise the error is handleErrors' over the failures in task order |
| Worker.Worker.RunTask | pkg/worker/worker.go:65-80 | one task: it joins the tracker's running list, runs with its own action or the shared one, and is then done, and failed when it was or its run failed |
| Worker.HandleTaskErrors | pkg/worker/worker.go:105-128 | the log holds each error's section in order and goes to LogFile; a write failure is traced, otherwise "<name> failed with <n> error(s)" |
| Worker.HandleErrorsAsWritten | pkg/worker/errors.go:25-46 | the log's sections in order, written to LogFile; the returned error says "workflow" whatever the handler's name |
| Worker.HandleErrors | pkg/worker/errors.go:25-46 | as written, except the returned error names the handler |
| Worker.WriteHandlerLog | pkg/worker/errors.go:26-34 | the loop builds HandlerReport |
| Worker.GitHeader | pkg/worker/errors.go:48-53 | the quoted command and its cause for a git error, "<idx> git command failed: <err>" otherwise |
| Worker.GitContent | pkg/worker/errors.go:55-60 | a git error's stderr, nothing for any other |
| Worker.FailuresCount | pkg/worker/worker.go:71-92 | one collected error per failing task |
| Worker.NoFailures | pkg/worker/worker.go:95-98 | no error is collected exactly when no task fails |
| Worker.FailuresAreOutcomes | pkg/worker/worker.go:71-78 | every collected error is a failing task's, with its name, and every failing task's error is collected |
| Worker.ReportAppend | pkg/worker/worker.go:108-115 | the log of two runs of failures is the first's log followed by the second's |
| Worker.ReportSnoc | pkg/worker/worker.go:108-115 | one more error adds its section at the end |
| Worker.ReportSingle | pkg/worker/worker.go:109-114 | a lone error's log: the "=> handle" header, its Out() when it has one, an empty line |
| Worker.ReportEmpty | pkg/worker/worker.go:105-115 | the log is empty exactly when there are no errors |
| Worker.DefaultLogFile | pkg/worker/worker.go:117-119 | a default log file is <temp>/gitzombie/logs/<name> |
| Worker.FinishedAll | pkg/worker/tracker.go:67-76 | when every running task is done, all are finished and none stays running |
| Worker.SplitCounts | pkg/worker/tracker.go:67-76 | a render keeps every task: finished and running ones together are as many as before, each on its side |
| Worker.DoneLinesNumbered | pkg/worker/tracker.go:87-100 | finished tasks are numbered consecutively from the counter + 1, with their names and whether they failed |
| Worker.HandlerReportSnoc | pkg/worker/errors.go:27-34 | one more error adds its section, at its own index |
| Worker.HandlerReportPrefix | pkg/worker/errors.go:27-34 | the log for a prefix of the errors is a prefix of the whole log |
| Worker.GitSection | pkg/worker/errors.go:30-58 | with the git handler a failed command's section shows the quoted command, its cause and its stderr |
| Worker.HandleErrorsNamesWorkflow | pkg/worker/errors.go:45 | the written error for the "import" handler differs from one naming it |
| Tracker.FirstNamed | pkg/tracker/tracker.go:122-127 | the index of the first task with the name, or -1 when none has it |
| Tracker.Tracker.constructor | pkg/tracker/tracker.go:41-50 | the total, the counter width as the digits of the total, the verb; nothing running or done |
| Tracker.Tracker.Start | pkg/tracker/tracker.go:113-117 | a new unfinished task joins the end of the running list |
| Tracker.Tracker.Done | pkg/tracker/tracker.go:119-129 | the first task with the name becomes done, failed exactly when not ok; without one nothing changes |
| Tracker.Tracker.Tick | pkg/tracker/tracker.go:52-111 | finished tasks leave the running list and are counted; the frame moves up over the previous running lines, prints the finished tasks numbered on from the counter and then the running ones; the goroutine stops once the counter reaches the total |
| Tracker.FilterDone | pkg/tracker/tracker.go:72-80 | the done tasks, in order |
| Tracker.FilterRunning | pkg/tracker/tracker.go:72-81 | the tasks still running, in order |
| Tracker.NumberDone | pkg/tracker/tracker.go:93-103 | one numbered line per done task |
| Tracker.ListRunning | pkg/tracker/tracker.go:105-108 | one line per running task with the verb |
| Tracker.RenderKeepsCount | pkg/tracker/tracker.go:72-81 | the done and running tasks together are as many as the list |
| Tracker.DoneLinesNumbered | pkg/tracker/tracker.go:93-103 | finished tasks are numbered consecutively from the counter + 1, with their names and whether they failed |
| Tracker.DoneMarksFirst | pkg/tracker/tracker.go:119-129 | finishing by name changes only the first task so named; the others and the order stay |
| Tracker.AllDoneDrains | pkg/tracker/tracker.go:56-81 | once every task is done the next render leaves nothing running |
| Edit.KeyMap | pkg/term/edit.go:60-66 | every item's key is in the map, and each key maps to an item having that key |
| Edit.KeyMapSnoc | pkg/term/edit.go:62-66 | a later item with the same key replaces the earlier one |
| Edit.Pick | pkg/term/edit.go:76-91 | every picked key is a known key |
| Edit.ItemsOf | pkg/term/edit.go:82-89 | one item per picked key, the one the key stands for |
| Edit.EditItems | pkg/term/edit.go:59-96 | the editor's error, the first unknown line's error, "nothing to do after editing" when nothing is picked, or the picked items in the edited order; a success is non-empty and holds only input items |
| Edit.IndexItems | pkg/term/edit.go:60-66 | the loop gives the seed lines and the item map |
| Edit.PickItems | pkg/term/edit.go:74-91 | the loop computes Pick over the trimmed lines and returns the items picked |
| Edit.PickStep | pkg/term/edit.go:76-91 | Pick over one more line: blank and repeated lines add nothing, an unknown one fails |
| Edit.PickErrPersists | pkg/term/edit.go:83-85 | once a line names no item, later lines do not change the outcome |
| Edit.PickMeaning | pkg/term/edit.go:76-91 | picking succeeds exactly when every non-blank line is a key, and then keeps each at its first occurrence, in line order; otherwise the error names the first unknown line |
| Edit.PickOkIff | pkg/term/edit.go:76-91 | success exactly when every non-blank line is a key |
| Edit.PickValue | pkg/term/edit.go:76-91 | a success is the non-blank lines with repeats dropped |
| Edit.PickErr | pkg/term/edit.go:83-85 | a failure names the first non-blank line that is no key |
| Edit.PickedItemsAreInputs | pkg/term/edit.go:82-89 | every returned item is an input, picked by its own key |
| Edit.UnchangedEditKeepsItems | pkg/term/edit.go:59-96 | saving the seed unchanged gives every item back in input order, when the keys are distinct, non-blank, unpadded and have no line break |
| Edit.SeedPicksAll | pkg/term/edit.go:76-91 | distinct non-blank keys pick themselves, in order |
| Edit.ItemsOfOwnKeys | pkg/term/edit.go:60-82 | with distinct keys, the items their keys stand for are the items |
| Edit.SeedLines | pkg/term/edit.go:67-77 | the seed split and trimmed gives back the keys when they are unpadded and have no line break |
| Edit.PickDistinct | pkg/term/edit.go:76-91 | distinct known keys are all picked, in order |
| Edit.KeyMapDistinct | pkg/term/edit.go:60-66 | with distinct keys each key maps back to its own item |
| Validate.EnumAccepts | pkg/validate/validate.go:31-39 | accepts a value exactly when it is one of the listed values |
| Validate.ConvertFieldName | pkg/validate/validate.go:68-84 | the loop computes FieldName: root dropped, other parts snake-cased, a one-part name kept |
| Validate.FieldNameOfPlainName | pkg/validate/validate.go:69-72 | a name without a dot is kept as it is |
| Validate.FieldNameDropsRoot | pkg/validate/validate.go:74-83 | "Root.<rest>" becomes rest with every part snake-cased |
| Validate.FieldNameParts | pkg/validate/validate.go:77-83 | the converted name splits into exactly the snake-cased parts after the root |
| Validate.FieldNameKeepsRest | pkg/validate/validate.go:74-77 | with snake-casing that changes nothing, a name of several parts loses only its root |
| Validate.FirstPrinter | pkg/validate/validate.go:156-161 | the first printer whose prefix the tag starts with, or none |
| Validate.IndexOf | pkg/validate/validate.go:141 | the first index of a name, or -1 when it is absent |
| Validate.FirstDuplicate | pkg/validate/validate.go:138-148 | a reported duplicate's first occurrence comes before its repeat |
| Validate.FieldString | pkg/validate/validate.go:154-166 | the loop over the printers computes FieldLine: "<name>: <message>" |
| Validate.FindDuplicate | pkg/validate/validate.go:133-148 | the loop stops at FirstDuplicate's repeat, with its name and both indices; "" and 0, 0 when the names are distinct |
| Validate.SeenIsFirst | pkg/validate/validate.go:141-145 | the index remembered for a repeated name is its first occurrence |
| Validate.PrintNeverEmpty | pkg/validate/validate.go:162-164 | every printer says something, so the generic message is used exactly when no printer matches |
| Validate.FirstDuplicateFacts | pkg/validate/validate.go:138-148 | no duplicate is reported exactly when the names are distinct; otherwise the earliest repeat and its name's only earlier occurrence |
| Validate.DuplicatePersists | pkg/validate/validate.go:145 | once a duplicate is found, later names do not change it |
| Validate.EnumFieldMessage | pkg/validate/validate.go:122-129 | a registered enum tag reports the enum's name, the value and its accepted values |
| Validate.RequiredFieldMessage | pkg/validate/validate.go:116-121 | a missing required value is "<name>: cannot be empty" |
| Validate.OtherFieldMessage | pkg/validate/validate.go:162-164 | a tag no printer knows gets "invalid <tag> <value>" |
| Validate.UniqueFieldMessage | pkg/validate/validate.go:130-151 | a duplicate-name complaint reports the first repeat and the first occurrence of its name |
| Validate.FieldOf | pkg/validate/validate.go:54-63 | the recorded field has the converted name, the tag and the printed value |
| Validate.Fields | pkg/validate/validate.go:53-64 | one field per complaint, in the validator's order |
| Validate.Lines | pkg/validate/validate.go:94-98 | one line per field |
| Validate.Do | pkg/validate/validate.go:43-66 | no error exactly for a valid value; an unusable value gives the library's error; otherwise a validation error printing one line per failed field |
| Validate.CollectFields | pkg/validate/validate.go:52-64 | the loop computes Fields |
| Validate.PrintFields | pkg/validate/validate.go:94-98 | the loop computes Lines |
| Validate.LinesAt | pkg/validate/validate.go:95-97 | line k is field k's String |
| Validate.InvalidReport | pkg/validate/validate.go:90-98 | the validation error reads "failed to validate configuration:" and its Extra prints each field's line |
| Merge.BuildOptions | cmd/repo/merge.go:99-129 | the options succeed exactly when a source branch is known (flag or current branch) and, with --upstream, the repository has an upstream; the current-branch error and "repo X does not have an upstream" are the two failures; the target is the argument or else the default branch, the source the flag or else the current branch, title and body empty |
| Merge.Heading | cmd/repo/merge.go:161-171 | the index of the first line starting with "#", with no such line before it, or -1 when no line starts with "#" |
| Merge.Extract | cmd/repo/merge.go:161-171 | without a "#" line there is no title and no body; otherwise the body is exactly the lines after the first "#" line |
| Merge.Finish | cmd/repo/merge.go:172-179 | fails with "merge title cannot be empty" exactly when the trimmed title is blank; otherwise yields the trimmed title and the trimmed newline-joined body |
| Merge.EditTitleAndBody | cmd/repo/merge.go:146-180 | the editor is given the seed text naming the source and target branches and whether the merge goes upstream; its error is returned unchanged; otherwise the result is the title and body read from the edited text split at newlines and trimmed line by line |
| Merge.ParseTitleAndBody | cmd/repo/merge.go:154-179 | the loop plus the final checks yield the title and body of the trimmed lines |
| Merge.ScanLines | cmd/repo/merge.go:161-171 | the scan loop computes Extract of the trimmed lines |
| Merge.ScanStep | cmd/repo/merge.go:163-170 | each iteration of the scan keeps the scan state equal to Extract of the lines read so far |
| Merge.HeadingStep | cmd/repo/merge.go:163-166 | the first heading of a prefix one line longer is the old one, or the new line when it is the first "#" line |
| Merge.ShowInfo | cmd/repo/merge.go:182-200 | the confirmation summary is four lines: title, body line count, source and target |
| Merge.PreambleIgnored | cmd/repo/merge.go:161-179 | lines before the title that do not start with "#" do not change the title or body |
| Merge.PreambleExtract | cmd/repo/merge.go:161-171 | lines before the title that do not start with "#" do not change what the scan extracts |
| Merge.TitleFirst | cmd/repo/merge.go:163-170 | a "#" title line followed by any lines gives back that title and exactly those lines as body |
| Merge.LaterHeadingsInBody | cmd/repo/merge.go:163-170 | every line after the first "#" line, including further "#" lines, is part of the body |
| Merge.TargetFromArgument | cmd/repo/merge.go:99-129 | with an argument and a --source flag and no --upstream, the options are exactly that source to that target, whatever the default branch or the current branch |
| Clean.TruncDiv | cmd/repo/clean.go:88-90 | the float division truncated by the int conversion is the exact quotient for a non-negative delta and never positive for a negative one |
| Clean.Init | cmd/repo/clean.go:55-115 | the result is the plan (threshold check, remote listing, storage load, then the scan of the remotes), and the storage's Close is registered exactly when Init succeeds |
| Clean.ScanRemotes | cmd/repo/clean.go:75-106 | the loop over the remotes computes the scan of the stored repositories of each remote, failing on the first remote whose configuration cannot be read |
| Clean.SelectRepos | cmd/repo/clean.go:81-105 | the inner loop picks exactly the selected repositories of a remote, in listed order, and records the path of every repository listed |
| Clean.ScanErrPersists | cmd/repo/clean.go:76-79 | once a remote's configuration fails, the later remotes do not change the error |
| Clean.SmallThresholdRejected | cmd/repo/clean.go:56-71 | Init fails exactly when the threshold is one day or less, the remote listing fails when no remote was named, the storage cannot load, or the scan fails; a small threshold gives "invalid flag days N: should be bigger than 1" |
| Clean.NeverAccessedPicked | cmd/repo/clean.go:83-103 | a repository never accessed is always picked, with days -1 and marked never |
| Clean.NeverFlagSkipsAccessed | cmd/repo/clean.go:84-87 | under --never an accessed repository is not picked |
| Clean.AccessedPickedWhenIdle | cmd/repo/clean.go:84-100 | otherwise an accessed repository is picked exactly when at least the threshold of days has passed, and it carries the whole days elapsed |
| Clean.DivThreshold | cmd/repo/clean.go:89-91 | comparing whole days with the threshold is comparing seconds with the threshold in seconds |
| Clean.NeverIffNoDays | cmd/repo/clean.go:101-103 | a picked item is marked never exactly when its repository was never accessed, and only then carries negative days |
| Clean.SelectAllMembers | cmd/repo/clean.go:81-105 | the picks of a remote are exactly the listed repositories the selection keeps |
| Clean.PathsMembers | cmd/repo/clean.go:82 | the recorded paths are exactly the paths of the listed repositories |
| Clean.ScanRecordsPaths | cmd/repo/clean.go:75-82 | every stored repository of a scanned remote has its path recorded, picked or not |
| Clean.PathListed | cmd/repo/clean.go:80-82 | a stored repository of a remote is among that remote's listed paths |
| Clean.ScanRecordsOnlyStored | cmd/repo/clean.go:80-82 | only paths of stored repositories are recorded |
| Clean.ScanItems | cmd/repo/clean.go:75-106 | the items are exactly the picks among the stored repositories of the scanned remotes, each with its remote's configuration |
| Clean.ScanItemsSound | cmd/repo/clean.go:75-106 | each item is a pick of a stored repository of some scanned remote |
| Clean.ScanItemsComplete | cmd/repo/clean.go:75-106 | each pick of a stored repository of a scanned remote is an item |
| Clean.ScanOkRemotes | cmd/repo/clean.go:76-79 | a successful scan read the configuration of every remote |
| Clean.NameWidth | cmd/repo/clean.go:155-159 | the name column is as wide as the longest full name, and 0 for no items |
| Clean.ShowCleanItems | cmd/repo/clean.go:152-186 | the shown order puts the never accessed items first as they came, then the others from most to fewest days; a count line then one line per shown item, names padded to the widest |
| Clean.Partition | cmd/repo/clean.go:156-165 | the first loop splits the items into the never accessed and the accessed ones, keeping order, and finds the widest name |
| Clean.RenderLines | cmd/repo/clean.go:173-185 | the printing loop gives the count line followed by one line per item in order |
| Clean.NeversThenSorted | cmd/repo/clean.go:167-170 | the never accessed items followed by the accessed ones sorted by days, in any permutation, are in the shown order |
| Clean.SplitNever | cmd/repo/clean.go:156-165 | the two partitions together hold exactly the items |
| Clean.ShownIsPermutation | cmd/repo/clean.go:167-170 | the shown items are a permutation of the items, the never accessed ones first, the rest by decreasing days |
| Clean.StrayFileStopsCleaning | cmd/repo/clean.go:190-205 | a workspace holding one stray file makes the walk as written fail, where passing over files walks it cleanly |
| Clean.WalkEntryListable | cmd/repo/clean.go:190-205 | with files passed over, walking a listable entry does not fail and records no repository's path |
| Clean.WalkEntriesListable | cmd/repo/clean.go:190-205 | the same for the entries of a listable directory from any position |
| Clean.WalkListable | cmd/repo/clean.go:190-206 | with files passed over, walking a listable workspace succeeds and never records a repository's directory for removal |
| Clean.CleanEmptyDir | cmd/repo/clean.go:188-227 | the error is the walk's ("scan workspace") or the first failed removal's ("remove empty dir"); the recorded directories are removed in walk order up to the first failure; the walk passes over files, as the corrected Visit of the Findings row for cmd/repo/clean.go:190-205 does |
| Clean.Run | cmd/repo/clean.go:117-149 | with no items only the empty directories are cleaned and the storage is unchanged, an error traced "clean empty dir"; otherwise an edit error stops everything, and the chosen items are shown in order and their repositories deleted up to the first failure, whose error is returned; the empty directories are found by the corrected walk |
| Clean.DeleteItems | cmd/repo/clean.go:134-139 | the loop leaves the storage and error the deleting run describes |
| Clean.DeleteItem | cmd/repo/clean.go:135-138 | one DeleteAll: on error the storage is unchanged, otherwise exactly the item's repository is gone |
| Clean.DeletedShift | cmd/repo/clean.go:134-139 | deleting the first item and then the rest is deleting them all |
| Clean.DeleteRunMeaning | cmd/repo/clean.go:134-139 | the loop deletes the repositories of the items before the first failing one and returns that one's error |
| Clean.DeletedKeepsOthers | cmd/repo/clean.go:134-139 | after deleting, a repository remains exactly when it was stored and is none of the deleted items' repositories |
| CleanDir.ChildFrom | pkg/osutil/clean_dir.go:67-79 | each scanned child comes from a subdirectory entry that is not excluded, at the joined path |
| CleanDir.ChildComplete | pkg/osutil/clean_dir.go:67-79 | every subdirectory entry that is not excluded is scanned as a child |
| CleanDir.Scan | pkg/osutil/clean_dir.go:56-81 | an empty directory is marked with no children; a directory with entries is unmarked, forced unmarked exactly when a file or excluded directory is among them, and has one child per scanned subdirectory |
| CleanDir.ScanSubs | pkg/osutil/clean_dir.go:72-79 | each child of a scanned directory is the scan of that subdirectory |
| CleanDir.ScanForcesNoMark | pkg/osutil/clean_dir.go:66-81 | a directory with entries is forced unmarked exactly when one entry is a file or a directory whose joined path is excluded |
| CleanDir.Mark | pkg/osutil/clean_dir.go:87-101 | marking keeps the tree's shape and marks every subtree; a node with children is marked exactly when all its children are, unless it is forced unmarked, when it keeps its mark; a leaf keeps its mark |
| CleanDir.MarkOf | pkg/osutil/clean_dir.go:91-100 | a node with children, given its children already marked, takes the conjunction of their marks unless forced unmarked |
| CleanDir.MarkStep | pkg/osutil/clean_dir.go:92-97 | one turn of the loop over the children keeps the running conjunction of the marks right |
| CleanDir.MarkIffNoFiles | pkg/osutil/clean_dir.go:41-101 | after the scan and the marking, a directory is marked exactly when it holds no file and no excluded directory at any depth |
| CleanDir.ListLength | pkg/osutil/clean_dir.go:103-111 | cleanList reports one path per topmost marked node |
| CleanDir.ListAtTop | pkg/osutil/clean_dir.go:103-111 | the k-th reported path is that of the k-th topmost marked node |
| CleanDir.TopsNotNested | pkg/osutil/clean_dir.go:104-107 | no reported directory lies inside another reported one |
| CleanDir.TopAncestors | pkg/osutil/clean_dir.go:104-110 | every node above a reported one is unmarked |
| CleanDir.MarkAt | pkg/osutil/clean_dir.go:87-101 | the node at any position of the marked tree is the marked node at that position |
| CleanDir.ScanAt | pkg/osutil/clean_dir.go:52-80 | the node at any position of the scanned tree is the scan of the directory at that position, readable when the whole tree is |
| CleanDir.ReportedIsEmpty | pkg/osutil/clean_dir.go:11-30 | every path ListEmptyDir reports is a directory reached through scanned subdirectories that holds no file and no excluded directory at any depth |
| CleanDir.ReportedIsMaximal | pkg/osutil/clean_dir.go:11-30 | every directory above a reported one holds a file or an excluded directory somewhere, so only the topmost empty directories are reported |
| CleanDir.Tree | pkg/osutil/clean_dir.go:32-39 | the tree of cleanItems reachable from an item has that item's path and one subtree per child |
| CleanDir.TreeIsScan | pkg/osutil/clean_dir.go:41-85 | once every item is scanned, the linked items from the root form exactly the scanned tree of its directory |
| CleanDir.ScanEntries | pkg/osutil/clean_dir.go:66-81 | the entry loop allocates one fresh item per scanned child, makes them the directory's children, pushes them on the stack, and forces the directory unmarked exactly when an entry blocks it |
| CleanDir.UnreadableReached | pkg/osutil/clean_dir.go:56-59 | a file system in which the scan reaches an unreadable directory is not readable as a whole |
| CleanDir.ExcludeSet | pkg/osutil/clean_dir.go:42-45 | the exclude map holds exactly the excluded paths |
| CleanDir.CleanScan | pkg/osutil/clean_dir.go:41-85 | the stack-driven scan succeeds exactly when every directory it reaches can be read, and then builds the scanned tree; otherwise the error is "read clean dir" over a reached directory's read error |
| CleanDir.CleanMark | pkg/osutil/clean_dir.go:87-101 | the recursive marking computes Mark |
| CleanDir.CleanList | pkg/osutil/clean_dir.go:103-111 | the recursive listing appends exactly the paths of the topmost marked nodes, in order |
| CleanDir.ListEmptyDir | pkg/osutil/clean_dir.go:11-30 | a stat error is returned as is; a root that is not a directory gives "clean: X is not a directory"; otherwise the result succeeds exactly when every reached directory can be read, and is the list of the marked scan |
| Import.ImportFilterIgnore | cmd/repo/import.go:101-120 | the loop keeps, in listed order, the repositories the filter keeps, or returns the first malformed pattern's "invalid ignore" error |
| Import.ShouldIgnore | cmd/repo/import.go:104-114 | the inner loop tries the patterns in order until one matches or one is malformed |
| Import.FilterErrPersists | cmd/repo/import.go:107-109 | once a pattern fails on a repository, later repositories do not change the error |
| Import.KeptIffUnmatched | cmd/repo/import.go:104-117 | a name is kept exactly when every pattern is well formed for it and none matches |
| Import.IgnoredIffMatched | cmd/repo/import.go:104-114 | a name is ignored exactly when some pattern matches it and every earlier pattern is well formed and does not |
| Import.IgnoredAt | cmd/repo/import.go:104-114 | a matching pattern preceded only by well-formed, non-matching ones makes the name ignored |
| Import.IgnoringPattern | cmd/repo/import.go:110-113 | an ignored name has a first matching pattern, with only well-formed non-matching patterns before it |
| Import.FilterKeepsUnmatched | cmd/repo/import.go:101-120 | a successful filter keeps, in order, exactly the repositories no pattern matches |
| Import.FilterFailsOnlyOnBadPattern | cmd/repo/import.go:101-120 | with every pattern well formed the filter cannot fail, and a failure names a malformed pattern |
| Import.IgnoredFailsOnlyOnBadPattern | cmd/repo/import.go:105-109 | the per-name check fails only when some pattern is malformed for that name |
| Import.Stored | core/repository.go:411-415 | the repository found under a remote and a name is stored there, and none is found only when none is stored |
| Import.Holder | core/repository.go:417-425 | the repository found at a path is stored at it, and none is found only when none is stored at it |
| Import.Resolve | cmd/repo/import.go:126-136 | a repository stored under the remote and listed name is used as is; otherwise a new workspace repository with the slash-trimmed name at the default workspace path is appended to the storage, or Add's error ends the turn |
| Import.CloneFor | cmd/repo/import.go:137-157 | no task exactly when the directory exists; an existence error is traced "check repo exists", a clone URL error "get clone url"; otherwise the task clones the repository's path from its URL with the remote's identity; the identity is the intended GetUserEmail's |
| Import.StoredFindsAny | core/repository.go:411-425 | among repositories that collide in no name and no path, each is found under its own name and at its own path |
| Import.StoreAgrees | core/repository.go:411-425 | under the storage's invariant, GetByName and the path index agree with the stored sequence |
| Import.PlannedSnoc | cmd/repo/import.go:149-157 | appending a worker task keeps the tasks in step with the planned names and values |
| Import.ImportGetTasks | cmd/repo/import.go:122-160 | the storage keeps its invariant and ends as the planned loop leaves it; the method fails exactly when the loop does, with its error, and otherwise returns worker tasks carrying the planned names and values in order; the identities are the intended GetUserEmail's |
| Import.RunStep | cmd/repo/import.go:125-157 | one turn leaves the storage, the error and the next planned task as Step describes, with the intended GetUserEmail's identity |
| Import.ResolveRepo | cmd/repo/import.go:126-136 | the lookup and Add leave the storage as Resolve says, unchanged on error |
| Import.GetTasksErrPersists | cmd/repo/import.go:129-147 | once a turn fails, the later repositories do not change the outcome |
| Import.StepGrows | cmd/repo/import.go:125-157 | a turn keeps earlier repositories and tasks, adds at most one workspace repository of the remote at its default location and at most one task cloning a stored repository whose directory is missing |
| Import.GetTasksNext | cmd/repo/import.go:125-158 | the loop over one more repository is one more turn, unless it had already failed |
| Import.TasksCloneMissing | cmd/repo/import.go:137-157 | every planned task clones a stored repository whose directory is missing, named after it and with its URL and identity, the identity being the intended GetUserEmail's |
| Import.ClonesStoredGrows | cmd/repo/import.go:125-158 | a task stays backed by a stored repository as more are stored |
| Import.ListedAreStored | cmd/repo/import.go:125-136 | after a successful loop every listed repository is stored under the remote, by its listed name or, if new, by that name stripped of slashes |
| Import.StorageOnlyGrows | cmd/repo/import.go:125-136 | the loop keeps every repository stored before it, and only adds workspace repositories of the remote |
| BranchSync.EffectAppend | cmd/gitops/branch/sync.go:101-114 | the work done by two runs of git calls one after the other is the work of the first, then the work of the second from the branch the first leaves checked out |
| BranchSync.CheckoutEffect | cmd/gitops/branch/sync.go:102-105 | a checkout does no work and leaves the named branch checked out |
| BranchSync.SyncData.constructor | cmd/gitops/branch/sync.go:46-72 | the data Init has just built: the listed branches, the main branch, which is also the backup, no current branch and no tasks |
| BranchSync.SyncData.CreateTasksAsWritten | cmd/gitops/branch/sync.go:119-164 | as written, the loop plans the tasks and fixes the backup and current branches, but the planned tasks are never stored, so the data's tasks stay as they were |
| BranchSync.SyncData.CreateTasks | cmd/gitops/branch/sync.go:119-164 | as intended: the data's tasks become the planned tasks, the backup is the last current branch kept or not gone, and the current branch is the last one marked current |
| BranchSync.SyncData.Init | cmd/gitops/branch/sync.go:72-85 | the tasks are the planned ones, as the corrected CreateTasks of the Findings row for cmd/gitops/branch/sync.go:119-163 stores them; when no listed branch is current, git is asked for the current branch, and its error ends Init |
| BranchSync.SyncData.Run | cmd/gitops/branch/sync.go:88-116 | the git calls, the error and the final current branch are those of running each task's command on its branch, stopping at the first failure, then checking out the backup branch when it is not current; nothing runs without tasks, and tasks and backup are unchanged |
| BranchSync.PrependTwice | cmd/gitops/branch/sync.go:101-110 | prepending calls in two steps is prepending them at once |
| BranchSync.RunTasksNext | cmd/gitops/branch/sync.go:101-110 | one turn of the loop: a checkout when the task's branch is not current, then the task's command, stopping on its error |
| BranchSync.Works | cmd/gitops/branch/sync.go:101-110 | the work of each task, one per task in order |
| BranchSync.RunTasksFailing | cmd/gitops/branch/sync.go:101-110 | the tasks before the first failing command each run their command on their own branch, in order, and that command's error is returned |
| BranchSync.RunTasksDone | cmd/gitops/branch/sync.go:101-114 | when no command fails, every task runs its command on its own branch in order and the backup branch is checked out at the end |
| BranchSync.SwitchWork | cmd/gitops/branch/sync.go:102-106 | the checkout a turn makes, followed by the task's command, runs that command on the task's branch |
| BranchSync.RunTasksErr | cmd/gitops/branch/sync.go:106-115 | Run's error is the first failing command's, else that of the final checkout |
| BranchSync.PlannedFrom | cmd/gitops/branch/sync.go:121-162 | the planned tasks are exactly the tasks the branches yield |
| BranchSync.PlannedTasks | cmd/gitops/branch/sync.go:128-161 | a branch ahead gets a push on it, one behind a pull on it, one gone (deletion on, not the main branch) its deletion run from the main branch; no task is a checkout, deletes the main branch, or deletes under --no-delete, and each names a listed branch |
| BranchSync.BackupOfCurrent | cmd/gitops/branch/sync.go:122-127 | with one branch marked current, the backup is that branch unless it is gone and deletion is on, when it stays the main branch; the current branch is that branch |
| BranchSync.NoCurrent | cmd/gitops/branch/sync.go:122-127 | with no branch marked current, the backup and current branch keep their starting values |
| BranchSync.AheadBranchNeverPushed | cmd/gitops/branch/sync.go:119-164 | a checked-out branch ahead of its remote is planned a push, but since the tasks are never stored Run makes no git call |
| SyncBranch.SyncBranch.constructor | cmd/git/branch.go:45-64 | a fresh command: the --no-delete and --remote flags, and no tasks |
| SyncBranch.SyncBranch.Plan | cmd/git/branch.go:87-139 | the planned tasks are appended to the receiver's list after its earlier tasks; the backup starts as the main branch and becomes the current branch unless that is gone on its remote with deletion on |
| SyncBranch.SyncBranch.Execute | cmd/git/branch.go:142-168 | the calls and the error are those of running every command of every task in order up to the first failure, then checking out the backup branch when the last task ended elsewhere; nothing runs without tasks |
| SyncBranch.SyncBranch.Run | cmd/git/branch.go:87-168 | the tasks list grows by the plan, and the calls and error are those of executing the whole list against the computed backup branch |
| SyncBranch.CommandsAppend | cmd/git/branch.go:155-163 | the commands of two task lists together are those of the first then those of the second |
| SyncBranch.CommandsSplit | cmd/git/branch.go:155-163 | the commands of the first n tasks begin the commands of all tasks |
| SyncBranch.Works | cmd/git/branch.go:155-163 | for tasks of the planned shape, the work is each task's command on its branch, in order |
| SyncBranch.CommandsWork | cmd/git/branch.go:155-163 | with checkouts succeeding, each task's command runs on the branch the task ends on, in order, and the last task's branch is left checked out |
| SyncBranch.ShapedWork | cmd/git/branch.go:102-124 | a checkout-then-command task runs its command on its branch and leaves it checked out |
| SyncBranch.StopsAt | cmd/git/branch.go:155-161 | a failure at command j of task i ends Run with exactly the calls made so far and that error |
| SyncBranch.CommandsAround | cmd/git/branch.go:155-161 | the commands of all tasks split around command j of task i |
| SyncBranch.FailsAfter | cmd/git/branch.go:155-161 | Run stops at the first failing call and returns its error |
| SyncBranch.ExecutedEndsOnBackup | cmd/git/branch.go:154-168 | when no command fails, every task's command runs on its own branch, Run ends on the backup branch, and only the final checkout's error can be returned |
| SyncBranch.ExecutedStopsAtFailure | cmd/git/branch.go:155-161 | when a command fails, Run has made exactly the calls up to it and returns its error |
| SyncBranch.PlannedFrom | cmd/git/branch.go:89-139 | the planned tasks are exactly the tasks the branches yield |
| SyncBranch.PlannedTasks | cmd/git/branch.go:98-138 | every task is a checkout of its branch then one command; a deletion runs on the main branch; under --no-delete nothing is deleted; each task names a listed branch |
| SyncBranch.PlannedComplete | cmd/git/branch.go:98-138 | every branch that is ahead, behind, or gone with deletion on gets a task |
| SyncBranch.GoneMainDeletedFromItself | cmd/git/branch.go:115-124 | a main branch gone on its remote is checked out and then deleted, where syncCreateTasks plans nothing for it |
| Sorting.SortBy | core/repository.go:183-185 | the array ends ordered by the given total, transitive order and holds the same elements as before |
| Sorting.Insert | core/repository.go:183-185 | one insertion pass extends the ordered prefix by one element and keeps the array's elements |

## Left out

- Concurrency. The worker's goroutines, channel and WaitGroup, the trackers' render goroutines and tickers, and the storage's locks are left out. Tasks run one after the other in list order, and a tracker renders when it is asked to. Lock discipline cannot be stated in this sequential model.
- Terminal output. Colours, the cursor-up escapes (only counted), prompts and `ConfirmExit` are left out. The lines a command prints are data or left out. The misspelt colour name "greeen" in `mergeShowInfo` is kept as written; how the terminal treats an unknown colour is not modelled.
- The editor and the temporary file it edits are left out. `Edit.EditItems` and `Merge.EditTitleAndBody` take the editor as a function from the text it is given to the edited text or its error.
- Running git, bash and other processes. This is a parameter from the argument list to the output and the exit status. Echoing commands and passing stderr through are not modelled.
- The file system's effects are not modelled; its contents are given as values:
  - the entries of a directory, the result of a stat, whether a directory exists;
  - the outcome of a removal;
  - the contents of the data files.
- `NewLocalRepository`, `DiscoverLocalRepositories`, `Dir` and `EnsureDir` in core/repository.go are left out: they only call the file system and git.
- `WriteTo`, `CreateTemplate`, `DeleteTemplate` and `UseTemplate` in core/template.go are left out: they are file copies.
- Persistence I/O. The gob encoding, opening and writing the data files, and encoding errors are left out. `Storage.Load`, `Storage.Read` and `Storage.RepositoryStorage.Close` give loading and saving as transformations between the stored records and the repositories.
- Time. `time.Now()` and `config.Now()` are a `now` parameter. The hour, day and week are taken to be 3600, 86400 and 604800 seconds; their definitions are not part of this model.
- Binary.ReadSome: a single Read call of the underlying reader is taken to return min(n, bytes left) bytes. A real reader may return fewer, which the model does not cover; binary.Read itself is modelled by `Binary.ReadFull`.
- `Clean.TruncDiv`: the float64 division of seconds by days is modelled exactly. float64 rounding for deltas beyond 2^53 seconds is not modelled.
- Provider APIs are left out. The repositories a provider lists and the remote configuration `core.GetRemote` returns are inputs, and `Clean.Init` takes the latter as a function of the remote's name.
- Foreign libraries are given as function parameters:
  - `filepath.Match`;
  - `strcase.ToSnake`;
  - the struct-tag validator of `validate.Do`, including its e-mail check;
  - `os.ExpandEnv`.
- `english.Plural` is modelled as the regular "+s" plural: every word the modelled code pluralises is regular.
- Strings are sequences of code points. Go's byte-level `len` is taken to be the code point count, which agrees for the ASCII names and keys used here.
- Aliasing. The Go code shares `*Repository` and `*worker.Task` pointers between the storage, the items and the tasks. The model copies values, so a change made through one alias is not seen through another. `Errors.Trace` likewise returns a new value: the Go code appends the operation to a traced error in place (pkg/errors/errors.go:27-30), so a traced error shared by two holders would change for both.
- `Sorting.SortBy` stands for Go's `sort.Slice` and `sort.Strings`. Their algorithm is not modelled; only their result is: sorted by the order, and a permutation. Go's sort is not stable, and no tie order is promised.
- `Template.FindTemplateFiles` states the set of files found, not the order the stack visits them in.
- The order of directory listings is taken as given in the directory values.
- `Clean.Run` states the stored repositories after the deletions, and the error. The name and path indices after each `DeleteAll` are stated by `Storage.RepositoryStorage.DeleteAll`, not restated here.
- `Clean.CleanEmptyDir` does not model the printed count of removed directories.
- The orchestration in the `Run` hooks of cmd/repo/merge.go and cmd/repo/import.go is left out. It is provider calls, prompts and the worker wiring. The parts they call are modelled: `Merge.BuildOptions`, `Merge.EditTitleAndBody`, `Import.ImportFilterIgnore` and `Import.ImportGetTasks`.
- `BranchSync.SyncData.constructor` and `SyncBranch.SyncBranch.Run` take the results of `EnsureNoUncommitted`, `Fetch`, `ListLocalBranches` and `GetMainBranch` as inputs. Those four are modelled on their own in `GitCommands` and `GitBranch`.
- `BranchSync.SyncData.Run`: as in the source, a failed checkout inside the loop is ignored.
- The printed task descriptions are kept as data (`BranchSync.Desc`) rather than as format strings.
- `CreateBranch` in cmd/git/branch.go (lines 30-43) is not modelled: it is one checkout and one push.
- `App.Registry.Register`: the cobra commands are left out, as are their flags and completion and the order in which the actions map is walked when the parents are attached.
- `Worker.JobTracker.Render` keeps `doneFmt` as the width it pads the counter to, not as a format string. Its ticking goroutine is not modelled.
- `CleanDir.CleanMark` and `CleanDir.CleanList` work on the tree of `cleanItem`s as a value. `cleanScan`'s stack loop is modelled over an arena of items (`CleanDir.CleanScan`).
- `Job.GetJobPath` takes the file-existence check as a parameter.
- The output routing of `MuteJob` and the printing of `Say` are left out.
- `Errors.Message` and `Errors.Extra` carry no contracts of their own. The lemmas `Errors.TraceFreshMessage`, `Errors.TraceTracedMessage` and `Errors.TraceKeepsExtra` state what they give.
- Workflow.MatchRepos, Workflow.Match: they select with the corrected `Workflow.RepoMatch` of the Findings row for core/workflow.go:111. The code as written selects every repository of the remote (`Workflow.RepoMatchAsWritten`). The rest of the model uses the corrected selector.
- Workflow.RepoItem: it sets the environment with the intended `Remote.SetEnv`. As written, a repository in no group of its remote panics, and REMOTE_USER and REMOTE_EMAIL are swapped (`Remote.SetEnvAsWritten`, `Remote.SetEnvSwapsIdentity`). Both are Findings rows.
- Storage.RepositoryStorage.Init: it reports a duplicated path with the corrected `Storage.DuplicatePath`. The code as written quotes the data file's path instead (`Storage.DuplicatePathAsWritten`, the Findings row for core/repository.go:275).
- Storage.RepositoryStorage.BuildIndices: the same corrected duplicate-path message as `Storage.RepositoryStorage.Init`.
- Clean.EmptyDirErr, Clean.CleanEmptyDir, Clean.Run: they walk the workspace with the corrected `Clean.Visit`, which passes over files. As written, a stray file ends the walk with "scan workspace" (`Clean.VisitAsWritten`, `Clean.StrayFileStopsCleaning`, the Findings row for cmd/repo/clean.go:190-205).
- Import.TaskFor, Import.CloneFor, Import.Step, Import.GetTasks: they take the identity from the intended `Remote.GetUserEmail`. As written, a repository in no group of the remote panics at cmd/repo/import.go:148 (`Remote.GetUserEmailAsWritten`, the Findings row for core/remote.go:111-118).
- ImportGetTasks: `Import.ImportGetTasks` plans with the intended identity, as `Import.TaskFor` does; the panic of the written code is not modelled.
- RunStep: `Import.RunStep` takes the intended identity, as `Import.TaskFor` does.
- TasksCloneMissing: the identity `Import.TasksCloneMissing` states is the intended `Remote.GetUserEmail`'s.
- BranchSync.SyncData.Init: it stores the planned tasks, as the corrected `BranchSync.SyncData.CreateTasks` does. As written the tasks are never stored, so Run has nothing to do (`BranchSync.SyncData.CreateTasksAsWritten`, `BranchSync.AheadBranchNeverPushed`, the Findings row for cmd/gitops/branch/sync.go:119-163).

## Findings

| source | as written | input that shows it | evidently intended | confidence | as-written member | corrected member |
|---|---|---|---|---|---|---|
| core/workflow.go:111 | `workflowRepoMatch.match` returns `List(remote)`, every repository of the remote, and drops the filtered slice | a repository of the selected remote whose name the pattern does not match: it is still selected | return the repositories whose names match the pattern | high, not executed | Workflow.SelectorMatchAsWritten, Workflow.RepoMatchAsWritten, Workflow.SelectorMatchIgnoresPattern | Workflow.SelectorMatch, Workflow.RepoMatch |
| core/remote.go:111-118 | `GetUserEmail` dereferences the matched group even when no group matches | a remote with no groups: nil dereference | keep the remote's user and email when no group matches | high, not executed | Remote.GetUserEmailAsWritten, Remote.GetUserEmailPanicsWithoutGroups | Remote.GetUserEmail, Remote.GetUserEmailAgrees |
| core/repository.go:118 | `SetEnv` takes `email, user := GetUserEmail(repo)`, while `GetUserEmail` returns (user, email), so REMOTE_USER gets the email and REMOTE_EMAIL the user | a repository in a group of its remote, the user and email differing: REMOTE_USER holds the email | REMOTE_USER is the user and REMOTE_EMAIL the email | high, not executed | Remote.SetEnvAsWritten, Remote.SetEnvSwapsIdentity | Remote.SetEnv |
| core/repository.go:275 | the duplicate-path error quotes `path`, the data file's path, instead of the repository's path | two records with the same path: the message names the data file | name the duplicated repository path | high, not executed | Storage.DuplicatePathAsWritten, Storage.DuplicatePathAsWrittenIgnoresRepo | Storage.DuplicatePath, Storage.DuplicatePathNamesRepo |
| pkg/worker/errors.go:45 | the summary error always says "workflow failed with …", whatever the handler's `Name` | `HandleErrors` with Name "import" and one error: "workflow failed with 1 error" | "<Name> failed with …", as `handleErrors` in pkg/worker/worker.go does | high, not executed | Worker.HandleErrorsAsWritten, Worker.HandleErrorsNamesWorkflow | Worker.HandleErrors |
| cmd/repo/clean.go:190-205 | the WalkDir callback calls `os.ReadDir` on every path it is given, files included, and a file's read error ends the walk | a workspace holding the file "notes.txt" outside every repository: "scan workspace" error, nothing cleaned | pass over files and look only at directories | medium, not executed | Clean.VisitAsWritten, Clean.StrayFileStopsCleaning | Clean.Visit, Clean.WalkListable |
| cmd/gitops/branch/sync.go:119-163 | `syncCreateTasks` builds its tasks in a local slice that is never stored in `ctx.Data.Tasks`, so `Run` always prints "nothing to do" (lines 89-92) | a checked-out branch "feature" ahead of its remote: Run makes no git call | store the planned tasks in `ctx.Data.Tasks` | high, not executed | BranchSync.SyncData.CreateTasksAsWritten, BranchSync.AheadBranchNeverPushed | BranchSync.SyncData.CreateTasks, BranchSync.PlannedTasks |
