# Git Branch Sidebar: a Dafny model

This project models the core of a VS Code extension that lists the local git
branches of the open repositories in a sidebar tree. From the tree the user can
create, check out, delete and rename branches. The model has five modules:

- `Text` (`text.dfy`): the JavaScript string operations the extension relies on,
  over `seq<char>`. These are `split` on one-character separators, `trim`, and
  the first line of a string, which is as far as a regular-expression `.` can
  reach. The extension never calls `join`; `Text.Join` is defined only so that
  `split` can be stated as its inverse.
- `Models` (`models.dfy`): the host's `Repository`, the `Branch` row that the
  tree shows, and the string enumerations of node contexts and command ids.
- `GitGateway` (`git.dfy`), for `src/git.ts`:
  - the branch-name regular expression, as a predicate;
  - the parser of `git branch` output;
  - the shell commands each operation builds;
  - the `Git` class. It keeps the repository list and one state listener per
    repository, and it records everything it does as a list of effects: errors
    shown, commands run, listeners disposed, and change notifications fired.
- `TreeProvider` (`tree_provider.dfy`), for `src/branch-tree-provider.ts`: the
  tree data provider. This covers the repository list it takes from the gateway, the
  single-repository context flag, `getChildren`, `getTreeItem` and
  `getCurrentRepository`.
- `Switcher` (`branches.dfy`), for `src/branches.ts`: the `BranchSwitcher`.
  This covers the commands it registers, and what each command handler asks
  the user and then asks of the gateway.

The outside world is passed in as parameters:

- The host's git API is `api: Option<seq<Repository>>`, meaning its repository
  list, or nothing when the git extension is absent.
- The text `git branch` prints is `stdout`, or `gitBranch(path)` in the tree
  provider.
- The result of a shell command is `execSucceeds`.
- The user's answers to input boxes and to the delete confirmation are
  `reply: Option<string>`. A dismissed box gives `None`.
- The `confirmDelete` setting is `Option<bool>`, where `None` means unset.

Behaviour that the model keeps as the code has it:

- The branch-name expression searches for `..`, `//`, `/.`, `@{` and `\` only
  on the first line of the name, because its `.*` stops at a line terminator.
  So `"a\n..b"` is accepted (`LineBreakHidesForbiddenPair`). On single-line
  names the expression is exactly the rules (`ValidIffRulesOnOneLine`).
- An invalid name only shows an error. The command still runs
  (`InvalidNameStillRuns`). Failing fast would be the safer design, but the
  code does not do it, and the model follows the code.
- A repository with an empty root path gets no listing, and no command runs
  in it.
- An absent branch name is written into commands as `undefined`.
- A line of `git branch` output made only of whitespace still produces a row.
  Its name is `""`, so the tree treats it as a repository row
  (`EmptyNameRowActsAsRepository`).
- Only the `* ` / two-space listing format is read back unchanged
  (`ParseRender`). git prints `+ ` before a branch checked out in another
  worktree; such a line gives an unselected row named `+ name`
  (`WorktreeLineKeepsMarker`). A name that starts or ends with non-ASCII
  whitespace, such as U+00A0 or U+3000, which git allows, loses that
  whitespace to `trim` (`UnicodePaddingIsLost`).
- The constructor never calls `setupRepoCommands`, so the per-repository
  create command is never registered.

## Model

| member | source | states |
|---|---|---|
| Text.Split | src/git.ts:88 | `split` on a one-character separator gives at least one piece, and no piece contains a separator |
| Text.SplitHead | src/git.ts:88 | the first piece is the longest separator-free prefix |
| Text.SplitLast | src/branch-tree-provider.ts:70 | the last piece is the longest separator-free suffix |
| Text.SplitWhole | src/git.ts:88 | there is one piece exactly when no separator occurs, and then that piece is the whole string |
| Text.SplitAtSeparator | src/git.ts:88 | splitting `a + sep + b` gives the pieces of `a` followed by the pieces of `b` |
| Text.SplitJoin | src/git.ts:88 | `split` undoes `join` when no piece contains the separator |
| Text.JoinSplit | src/git.ts:88 | `join` undoes `split`: no character is lost or moved |
| Text.FirstLine | src/git.ts:18 | the part that `.*` can scan: a prefix with no line terminator, followed by a terminator or by the end |
| Text.TrimStart | src/git.ts:91 | removes a leading run of whitespace and line terminators, and leaves a suffix that does not start with one |
| Text.TrimEnd | src/git.ts:91 | removes a trailing run of whitespace and line terminators, and leaves a prefix that does not end with one |
| Text.Trim | src/git.ts:91 | the result starts and ends with no trimmable character, is no longer than the input, and is empty for an all-blank input |
| Text.TrimPadded | src/git.ts:91 | trimming blank padding off both sides of a trimmed string gives that string back |
| Text.TrimIdempotent | src/git.ts:91 | trimming twice is the same as trimming once |
| Models.ContextValueInjective | src/enums/tree-node-context.enum.ts:1-7 | distinct node contexts have distinct strings |
| GitGateway.ValidRejectsEmpty | src/git.ts:18 | `[^…]+` rejects the empty name |
| GitGateway.ValidRejectsLeadingSlash | src/git.ts:18 | `(?!\/` rejects a name that starts with `/` |
| GitGateway.ValidRejectsForbiddenPair | src/git.ts:18 | `/.`, `..`, `//` or `@{` before any line break rejects the name |
| GitGateway.ValidRejectsBackslash | src/git.ts:18 | a backslash before any line break rejects the name |
| GitGateway.ValidRejectsExcludedChar | src/git.ts:18 | a space, DEL, `~`, `^`, `:`, `?`, `*` or `[` anywhere rejects the name |
| GitGateway.ValidRejectsLockSuffix | src/git.ts:18 | `(?<!\.lock)` rejects a name that ends in `.lock` |
| GitGateway.ValidRejectsTrailingSlashOrDot | src/git.ts:18 | `(?<![/.])` rejects a name that ends in `/` or `.` |
| GitGateway.RulesImplyValid | src/git.ts:18 | every name that follows the naming rules is accepted |
| GitGateway.ValidIffRulesOnOneLine | src/git.ts:18 | on a name without line terminators, the expression accepts exactly the names that follow the rules |
| GitGateway.LineBreakHidesForbiddenPair | src/git.ts:18 | `"a\n..b"` is accepted although it breaks the rules, because `.*` does not cross the line break |
| GitGateway.ValidNameHasNoSpace | src/git.ts:18 | an accepted name contains no space character (U+0020); tabs and line breaks are not excluded |
| GitGateway.AcceptedExamples | src/git.ts:18 | `main`, `feature/x`, `.foo`, `@` and a name containing a tab are accepted |
| GitGateway.RejectedSequenceExamples | src/git.ts:18 | `a//b`, `a/.b` and `a..b` are rejected |
| GitGateway.RejectedEscapeExamples | src/git.ts:18 | `a@{b` and `a\b` are rejected |
| GitGateway.RejectedShapeExamples | src/git.ts:18 | the empty name, `/x`, `x.lock`, `x/` and `x.` are rejected |
| GitGateway.RejectedCharacterExamples | src/git.ts:18 | a name with a space, `~`, `^`, `:`, `?`, `*`, `[` or DEL in it is rejected |
| GitGateway.NonEmpty | src/git.ts:88 | the filter keeps only non-empty lines, and no more lines than it was given |
| GitGateway.NonEmptySingle | src/git.ts:88 | a single line is kept exactly when it is non-empty; with `NonEmptyAppend` this fixes the filter on every list |
| GitGateway.NonEmptyAppend | src/git.ts:88 | the filter keeps order: filtering `a + b` gives the filtered `a` followed by the filtered `b` |
| GitGateway.ParseLine | src/git.ts:89-97 | the row keeps the repository, is selected exactly when the line starts with `*`, and its name is the rest of the line, trimmed |
| GitGateway.BlankLineGivesEmptyName | src/git.ts:88-97 | a whitespace-only line gives an unselected row with the name `""` |
| GitGateway.StarredBlankLineGivesEmptyName | src/git.ts:90-91 | `*` followed by blanks gives a selected row with the name `""` |
| GitGateway.ParseLines | src/git.ts:88-97 | one row for each non-empty line, in order, each parsed from its line |
| GitGateway.ParseLinesAppend | src/git.ts:88-97 | parsing two lists of lines one after the other gives the two lists of rows one after the other |
| GitGateway.ParseBranches | src/git.ts:88-97 | one row per non-empty line of the output, each for the given repository, with a trimmed name |
| GitGateway.ParseBranchesAppend | src/git.ts:88-97 | two outputs joined by a line break give the rows of the first, then the rows of the second |
| GitGateway.RenderLineAvoids | src/git.ts:88 | a printed branch line is non-empty and has no line break when the name has none |
| GitGateway.ParseSelectedLine | src/git.ts:90-96 | the line `* name` gives the selected row `name` |
| GitGateway.ParseOtherLine | src/git.ts:90-96 | the line two spaces then `name` gives the unselected row `name` |
| GitGateway.ParseRenderLine | src/git.ts:90-96 | a branch line in the `* ` / two-space format, with a name that has no line break and no whitespace at either end, is parsed back into the same row |
| GitGateway.ParseRender | src/git.ts:88-98 | a listing in the `* ` / two-space format whose names have no line break and no whitespace at either end parses back to the same rows, in the same order, with the same selection |
| GitGateway.WorktreeLineKeepsMarker | src/git.ts:90-91 | a worktree line `+ name` gives an unselected row whose name keeps the `+ ` marker |
| GitGateway.UnicodePaddingIsLost | src/git.ts:91 | a name that starts with U+00A0 and ends with U+3000 comes back without them |
| GitGateway.ParseExample | src/git.ts:88-98 | `"* main\n  feature/x\n"` gives `main` selected, then `feature/x` not selected |
| GitGateway.GetBranches | src/git.ts:77-99 | no rows for a repository with no path; otherwise the parsed rows, all for that repository and all named |
| GitGateway.InvalidNameStillRuns | src/git.ts:101-114 | create and rename with an invalid name show the error, and still run their command whenever there is a path |
| GitGateway.EmptyPathRunsNothing | src/git.ts:105-108 | with an empty root path, none of the four operations runs a command |
| GitGateway.WordsAppend | src/git.ts:110 | adding a space-free word after a space adds exactly that word to the command's words |
| GitGateway.Words | src/git.ts:110 | a string with no space character splits on spaces into itself alone |
| GitGateway.CreateBranchWords | src/git.ts:109-110 | for a name without spaces, the create command split on spaces is `git`, `checkout`, `-b` and the name |
| GitGateway.CheckoutBranchWords | src/git.ts:123-124 | for a branch name without spaces, the checkout command split on spaces is `git`, `checkout` and the interpolated branch name |
| GitGateway.DeleteBranchWords | src/git.ts:137-138 | for a branch name without spaces, the delete command split on spaces is `git`, `branch`, `-D` (force delete) and the interpolated branch name |
| GitGateway.RenameBranchWords | src/git.ts:154-157 | for names without spaces, the rename command split on spaces passes only the new name for the checked-out branch, and the old name then the new name for any other branch |
| GitGateway.CreateBranchTwoWords | src/git.ts:109-110 | a name of two space-free words joined by a space makes the create command split into `git`, `checkout`, `-b` and those two words |
| GitGateway.SpacedNameRunsSeveralWords | src/git.ts:101-114 | the invalid name `a b` shows the error and still runs `git checkout -b a b`, whose words are `git`, `checkout`, `-b`, `a` and `b` |
| GitGateway.ThreeWords | src/git.ts:124 | three space-free words joined by spaces split back into those three words |
| GitGateway.FourWords | src/git.ts:110 | the same for four words |
| GitGateway.FiveWords | src/git.ts:154 | the same for five words |
| GitGateway.Count | src/git.ts:52-71 | the number of effects of one kind is at most the number of effects, and it is zero exactly when no effect is of that kind |
| GitGateway.CountAppend | src/git.ts:52-71 | counts add up over concatenated effect lists |
| GitGateway.DisposalsOnlyDispose | src/git.ts:54 | disposing the listeners neither runs a command nor fires the change notification |
| GitGateway.PlanCounts | src/git.ts:101-166 | an operation's plan runs at most one command and fires no notification |
| GitGateway.RefreshCounts | src/git.ts:52-67 | a refresh runs no command, and fires once exactly when the API is present |
| GitGateway.PlannedOpEffects | src/git.ts:101-166 | any operation other than refresh does its plan, then refreshes exactly when its command ran and succeeded |
| GitGateway.RefreshOpEffects | src/git.ts:69-71 | a refresh has no plan effects of its own: only the disposals and the notification |
| GitGateway.OperationCounts | src/git.ts:101-166 | each operation runs at most one command; the change notification fires once exactly when the operation refreshes and the API is present, and never after a failed command |
| GitGateway.Git.constructor | src/git.ts:20-22 | the first `getRepos`: with the API, its repositories, one listener for each, and one notification; without it, nothing |
| GitGateway.Git.GetRepos | src/git.ts:52-67 | disposes every old listener in order; then, with the API, takes its repositories, fires once and subscribes one listener per repository; without the API, keeps the list and has no listeners |
| GitGateway.Git.Refresh | src/git.ts:69-71 | exactly `getRepos`; it reports whether the change notification fired |
| GitGateway.Git.ShowAndRun | src/git.ts:102-114 | adds the invalid-name error if the plan has one, then the command run if the plan has one |
| GitGateway.Git.Apply | src/git.ts:101-166 | the plan's effects, then a refresh only when a command ran and succeeded; with no refresh, the list and the listeners stay as they were |
| GitGateway.Git.Perform | src/git.ts:101-166 | the shared shape of the four operations: the error if the name is invalid, the command if there is a path, and a refresh only after a successful command |
| GitGateway.Git.CreateBranch | src/git.ts:101-117 | the effects and the new state of `createBranch` |
| GitGateway.Git.CheckoutBranch | src/git.ts:118-131 | the effects and the new state of `checkoutBranch` |
| GitGateway.Git.DeleteBranch | src/git.ts:132-145 | the effects and the new state of `deleteBranch` |
| GitGateway.Git.RenameBranch | src/git.ts:146-166 | the effects and the new state of `renameBranch` |
| TreeProvider.LastSegment | src/branch-tree-provider.ts:69-71 | the repository label is the part of the path after its last `/` or `\`: a separator-free suffix with a separator before it |
| TreeProvider.LastSegmentAfter | src/branch-tree-provider.ts:70-71 | the label of `dir + sep + name` is `name` |
| TreeProvider.LastSegmentExamples | src/branch-tree-provider.ts:70-71 | labels of a POSIX path, a Windows path, and a path that ends with a separator (empty label) |
| TreeProvider.GetTreeItem | src/branch-tree-provider.ts:47-76 | a named row is a leaf with its name as label; the checked-out branch is marked and has no command; any other branch checks itself out when clicked; every other row is a collapsed repository, labelled by its folder |
| TreeProvider.CommandOnlyOnOtherBranches | src/branch-tree-provider.ts:47-76 | an item has a command exactly when it is a branch that is not checked out; it is a repository exactly when its row is unnamed |
| TreeProvider.BranchTreeProvider.constructor | src/branch-tree-provider.ts:22-25 | starts with the gateway's list and publishes the single-repository flag |
| TreeProvider.BranchTreeProvider.UpdateRepos | src/branch-tree-provider.ts:42-45 | takes the gateway's list (the same array; sharing it is harmless because the gateway replaces its array and never changes it in place) and sets the flag to whether there is exactly one repository |
| TreeProvider.BranchTreeProvider.OnReposChanged | src/branch-tree-provider.ts:26-31 | on a change notification, re-reads the list and publishes the flag first, then invalidates the whole tree |
| TreeProvider.BranchTreeProvider.GetCurrentRepository | src/branch-tree-provider.ts:108-114 | there is a current repository exactly when there is one repository, and it is that one |
| TreeProvider.BranchTreeProvider.GetChildren | src/branch-tree-provider.ts:78-106 | no repositories gives nothing; with one repository the root lists its branches; with several it lists one row per repository, in order; an unnamed row lists its repository's branches; a named row has no children |
| TreeProvider.SingleRepositoryRootIsFlat | src/branch-tree-provider.ts:84-88 | with one repository every root row is a named row of that repository |
| TreeProvider.MultiRepositoryTree | src/branch-tree-provider.ts:91-101 | with several repositories, root row `k` is drawn as repository `k` and opens onto that repository's branches |
| TreeProvider.BranchRowIsLeaf | src/branch-tree-provider.ts:97-105 | a named row has no children and is drawn as a branch |
| TreeProvider.EmptyNameRowActsAsRepository | src/branch-tree-provider.ts:97-101 | a row named `""` is drawn as a repository and lists the repository's branches again |
| TreeProvider.CurrentRepositoryMatchesContext | src/branch-tree-provider.ts:44 | there is a current repository exactly when the published flag is true |
| Switcher.ConfirmDelete | src/branches.ts:88 | confirmation is asked for only when the setting is explicitly true; when it is unset the default is false |
| Switcher.BranchSwitcher.constructor | src/branches.ts:16-26 | the gateway starts from the first `getRepos` (the API's repositories, one listener each, one notification) and the provider from that list with one flag event and no invalidation, because the gateway fires before the provider subscribes; then it registers the gateway, the provider, the tree view, the two global commands and the checkout, delete and rename commands, in that order, and never the per-repository create command |
| Switcher.ListenersFollowTree | src/git.ts:52-67 | the gateway holds either no listeners or exactly one per repository the tree shows |
| Switcher.BranchSwitcher.SetupTree | src/branches.ts:28-32 | adds the tree view to the subscriptions |
| Switcher.BranchSwitcher.SetupGlobalCommands | src/branches.ts:33-53 | registers refresh and create-branch |
| Switcher.BranchSwitcher.SetupRepoCommands | src/branches.ts:54-70 | registers the per-repository create-branch command |
| Switcher.BranchSwitcher.SetupBranchCommands | src/branches.ts:71-113 | registers checkout, delete and rename; branch-from is commented out in the source |
| Switcher.BranchSwitcher.Issue | src/branches.ts:35-111 | a handler's single gateway call: the gateway does the operation, and if it fires the notification, the provider re-reads the list and invalidates the tree, so the provider and the gateway keep the same list |
| Switcher.BranchSwitcher.OnRepositoryStateChanged | src/git.ts:59-71 | a repository's state-change callback refreshes the gateway and, when the notification fires, the provider re-reads the list and invalidates the tree; no handler call is recorded and no prompt is shown |
| Switcher.BranchSwitcher.OnRefresh | src/branches.ts:35-37 | one gateway refresh, with no prompt |
| Switcher.BranchSwitcher.OnCreateBranchGlobal | src/branches.ts:38-51 | with no single current repository, no prompt and no call; otherwise one name prompt, then create in that repository exactly when the reply is non-empty |
| Switcher.BranchSwitcher.OnCreateBranchInRepo | src/branches.ts:56-68 | with no repository, no prompt and no call; otherwise one name prompt, then create exactly when the reply is non-empty |
| Switcher.BranchSwitcher.OnCheckout | src/branches.ts:73-75 | the clicked row goes straight to checkout, with no prompt |
| Switcher.BranchSwitcher.OnDelete | src/branches.ts:86-100 | with confirmation on, one modal naming the branch, and delete exactly when the reply is `Confirm`; with it off or unset, delete without asking |
| Switcher.BranchSwitcher.OnRename | src/branches.ts:101-111 | one prompt pre-filled with the current name, then rename exactly when the reply is non-empty, even when it is the unchanged name |

## Left out

- `dispose` of the gateway and of the provider is not modelled. It deletes
  fields and disposes subscriptions, which is lifetime management of the host.
- `getApi` is not modelled. Looking up the git extension, caching it, and
  subscribing to its `onDidChangeState` are host plumbing. The API is a
  parameter instead, and a state change of the API is the caller invoking
  `OnRepositoryStateChanged`.
- The repository state listeners are modelled as values (`StateListener`).
  The callback each one runs (src/git.ts:61-63) is
  `Switcher.BranchSwitcher.OnRepositoryStateChanged`, which the caller
  invokes when a repository changes.
- `EventEmitter`s and `setContext` are not modelled as such: firing is
  recorded as an effect or event, in order.
- The icon file paths of the checked-out branch are not modelled. They are
  built from the extension folder, and the model keeps only whether the
  check icon is shown.
- Asynchrony and concurrency are not modelled. Every `await` completes before
  the next step, and the switcher's handlers, which do not await the gateway,
  are modelled as if the call happened inline. A rejected `getBranches`
  promise is not modelled either: an empty path returns `[]`, and otherwise
  `stdout` is given.
- A failed `exec` rejects the promise, so the rest of the operation (the
  refresh) is skipped. The model keeps only that effect, through
  `execSucceeds`; the rejection itself is not modelled.
- Shell parsing is not modelled. A command is the string the code builds,
  and the word lemmas split it on the space character only. The shell also
  splits on tabs, ends a command at a line break, and interprets
  metacharacters such as `;`. The expression accepts all of these, so for
  such names the shell runs something other than those words.
- The word lemmas (`CreateBranchWords`, `CheckoutBranchWords`,
  `DeleteBranchWords`, `RenameBranchWords`) hold only for names without a
  space. An invalid name is still run, so a name with a space reaches git as
  several arguments: `a b` runs `git checkout -b a b`
  (`SpacedNameRunsSeveralWords`).
- `Git.GetRepositories`, `Models.RepositoryRow`, `Models.Interpolate`,
  `Models.ContextValue`, `Models.BranchCommandId` and the `*Plan`/`*Command`
  functions only assemble values, so they carry no contract of their own.
  Their meaning is stated by the lemmas about them.
- `GitGateway.InvocationIn` (src/git.ts:105-113: the `!path` return and the
  `cwd` of `exec`), `GitGateway.ListenersFor` (src/git.ts:59-65: one
  `onDidChange` subscription per repository, in order) and `Models.Truthy`
  (the JavaScript truthiness tests at src/branch-tree-provider.ts:48,97 and
  src/branches.ts:48,65,108) are definitions without a contract of their own.
  What they mean is stated by `EmptyPathRunsNothing`, `InvalidNameStillRuns`,
  `SpacedNameRunsSeveralWords`, the contracts of `Git.GetRepos` and
  `Switcher.ListenersFollowTree`, and the contracts of `GetTreeItem`,
  `GetChildren` and the `On*` handlers.
- `GitGateway.ValidBranchName` (src/git.ts:18) and `GitGateway.FollowsNameRules`
  are definitions without a contract of their own. What they mean is stated by
  the `ValidRejects*` lemmas, `RulesImplyValid`, `ValidIffRulesOnOneLine` and
  `LineBreakHidesForbiddenPair`.
- `GitGateway.Disposals` (src/git.ts:54), `GitGateway.RefreshEffects`
  (src/git.ts:52-67), `GitGateway.PlanOf`, `GitGateway.PlanEffects`,
  `GitGateway.Refreshes`, `GitGateway.OperationEffects` (src/git.ts:101-166) and
  `GitGateway.Git.Did` are definitions without a contract of their own. What they mean is
  stated by `DisposalsOnlyDispose`, `RefreshCounts`, `PlanCounts`,
  `PlannedOpEffects`, `RefreshOpEffects`, `OperationCounts`, the loop invariant
  of `Git.GetRepos`, and the contracts of the `Git` methods.
- The two upstream fields of `Branch` and the upstream node contexts are
  declared but never filled by the code, so they stay `None` and unused.
- `src/tree/scm/branches.ts` and `src/extension.ts` are not part of this
  model: activation only constructs the switcher.
- The `!this.repos` test in `getChildren` only matters after `dispose`, which
  is not modelled.
- The input boxes' placeholder and prompt texts, and the text of the delete
  warning, are not modelled. The model keeps only which prompt is shown, and
  the pre-filled value or the branch it names.
