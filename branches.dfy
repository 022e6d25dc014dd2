/** src/branches.ts: the `BranchSwitcher`, which creates the gateway and the
    tree provider, registers the user commands, and runs each command's
    handler. A handler asks the user (an input box or a modal warning),
    then issues at most one gateway operation; the user's replies, the
    configuration value, the host's git API and whether the shell command
    succeeds are inputs. */
module Switcher {
  import opened Models
  import GitGateway
  import TreeProvider

  /** The commands the switcher knows how to register. */
  datatype CommandName = GlobalRefresh | GlobalCreateBranch | RepoCreateBranch | BranchCommandName(command: BranchCommand)

  /** What is pushed onto the extension's subscriptions. */
  datatype Subscription =
    | GitGatewayDisposable
    | TreeProviderDisposable
    | TreeViewDisposable
    | CommandRegistration(name: CommandName)

  /** What a handler shows the user: a branch-name input box (with its
      pre-filled value), or the modal delete confirmation for a branch. */
  datatype Prompt = BranchNameInput(value: Option<string>) | DeleteWarning(branchName: Option<string>)

  const ConfirmButton: string := "Confirm"

  /** `config.get('confirmDelete', false)`: unset reads as false. */
  function ConfirmDelete(setting: Option<bool>): (confirm: bool)
    ensures confirm <==> setting == Some(true)
  {
    match setting
    case None => false
    case Some(b) => b
  }

  class BranchSwitcher {
    const git: GitGateway.Git
    const tree: TreeProvider.BranchTreeProvider
    var subscriptions: seq<Subscription>
    var prompts: seq<Prompt>
    var issued: seq<GitGateway.Operation>

    /** The gateway and the provider are wired to each other and agree on the
        repository list. */
    ghost predicate Valid()
      reads this, git, tree
    {
      git.Valid() && tree.Valid() && tree.git == git && tree.repos == git.repos
    }

    /** The operation was issued once: the gateway did it, and if the
        gateway announced a change the provider re-read and invalidated. */
    twostate predicate Issued(op: GitGateway.Operation, execSucceeds: bool, api: Option<seq<Repository>>)
      reads this, git, tree
    {
      && issued == old(issued) + [op]
      && git.Did(op, execSucceeds, api)
      && tree.repos == git.repos
      && tree.events == old(tree.events) +
           (if GitGateway.Refreshes(op, execSucceeds) && api.Some? then
              [TreeProvider.SetSingleRepositoryContext(|git.repos| == 1), TreeProvider.FireTreeDataChanged]
            else [])
    }

    /** No operation was issued and nothing in the gateway or provider changed. */
    twostate predicate Idle()
      reads this, git, tree
    {
      issued == old(issued) && unchanged(git) && unchanged(tree)
    }

    constructor (api: Option<seq<Repository>>)
      ensures Valid() && fresh(git) && fresh(tree)
      ensures subscriptions == [
        GitGatewayDisposable, TreeProviderDisposable, TreeViewDisposable,
        CommandRegistration(GlobalRefresh), CommandRegistration(GlobalCreateBranch),
        CommandRegistration(BranchCommandName(Checkout)), CommandRegistration(BranchCommandName(Delete)),
        CommandRegistration(BranchCommandName(Rename))]
      ensures CommandRegistration(RepoCreateBranch) !in subscriptions
      ensures prompts == [] && issued == []
      ensures git.repos == (if api.Some? then api.value else [])
      ensures git.repoStateChanges == (if api.Some? then GitGateway.ListenersFor(git.repos) else [])
      ensures git.effects == (if api.Some? then [GitGateway.FireReposChanged] else [])
      ensures tree.repos == git.repos
      ensures tree.events == [TreeProvider.SetSingleRepositoryContext(|git.repos| == 1)]
    {
      var g := new GitGateway.Git(api);
      git := g;
      tree := new TreeProvider.BranchTreeProvider(g);
      subscriptions := [GitGatewayDisposable, TreeProviderDisposable];
      prompts, issued := [], [];
      new;
      SetupTree();
      SetupGlobalCommands();
      SetupBranchCommands();
    }

    method SetupTree()
      modifies this`subscriptions
      ensures subscriptions == old(subscriptions) + [TreeViewDisposable]
    {
      subscriptions := subscriptions + [TreeViewDisposable];
    }

    method SetupGlobalCommands()
      modifies this`subscriptions
      ensures subscriptions == old(subscriptions) +
        [CommandRegistration(GlobalRefresh), CommandRegistration(GlobalCreateBranch)]
    {
      subscriptions := subscriptions + [CommandRegistration(GlobalRefresh), CommandRegistration(GlobalCreateBranch)];
    }

    /** Defined, but the constructor never calls it. */
    method SetupRepoCommands()
      modifies this`subscriptions
      ensures subscriptions == old(subscriptions) + [CommandRegistration(RepoCreateBranch)]
    {
      subscriptions := subscriptions + [CommandRegistration(RepoCreateBranch)];
    }

    method SetupBranchCommands()
      modifies this`subscriptions
      ensures subscriptions == old(subscriptions) + [
        CommandRegistration(BranchCommandName(Checkout)), CommandRegistration(BranchCommandName(Delete)),
        CommandRegistration(BranchCommandName(Rename))]
    {
      subscriptions := subscriptions + [
        CommandRegistration(BranchCommandName(Checkout)), CommandRegistration(BranchCommandName(Delete)),
        CommandRegistration(BranchCommandName(Rename))];
    }

    /** Hands one operation to the gateway; the gateway's change notification
        runs the provider's subscription synchronously. */
    method Issue(op: GitGateway.Operation, execSucceeds: bool, api: Option<seq<Repository>>)
      requires Valid()
      modifies this`issued, git, tree
      ensures Valid() && Issued(op, execSucceeds, api)
    {
      issued := issued + [op];
      var fired: bool;
      match op {
        case RefreshOp =>
          fired := git.Refresh(api);
        case CreateOp(repo, name) =>
          fired := git.CreateBranch(repo, name, execSucceeds, api);
        case CheckoutOp(branch) =>
          fired := git.CheckoutBranch(branch, execSucceeds, api);
        case DeleteOp(branch) =>
          fired := git.DeleteBranch(branch, execSucceeds, api);
        case RenameOp(branch, newName) =>
          fired := git.RenameBranch(branch, newName, execSucceeds, api);
      }
      if fired {
        tree.OnReposChanged();
      }
    }

    /** A repository's `state.onDidChange` callback: the gateway refreshes,
        and its change notification makes the provider re-read the list. No
        command handler runs, so nothing is recorded as issued. */
    method OnRepositoryStateChanged(api: Option<seq<Repository>>)
      requires Valid()
      modifies git, tree
      ensures Valid() && issued == old(issued) && prompts == old(prompts)
      ensures git.Did(GitGateway.RefreshOp, true, api)
      ensures tree.repos == git.repos
      ensures tree.events == old(tree.events) +
        (if api.Some? then [TreeProvider.SetSingleRepositoryContext(|git.repos| == 1), TreeProvider.FireTreeDataChanged]
         else [])
    {
      var fired := git.Refresh(api);
      if fired {
        tree.OnReposChanged();
      }
    }

    /** The refresh command: one `refresh()` of the gateway. */
    method OnRefresh(api: Option<seq<Repository>>)
      requires Valid()
      modifies this`issued, git, tree
      ensures Valid() && prompts == old(prompts)
      ensures Issued(GitGateway.RefreshOp, true, api)
    {
      Issue(GitGateway.RefreshOp, true, api);
    }

    /** The global create-branch command: nothing without a single current
        repository; otherwise ask for a name and create it when the reply
        is non-empty. */
    method OnCreateBranchGlobal(reply: Option<string>, execSucceeds: bool, api: Option<seq<Repository>>)
      requires Valid()
      modifies this`prompts, this`issued, git, tree
      ensures Valid()
      ensures var repo := old(tree.GetCurrentRepository());
        && prompts == old(prompts) + (if repo.Some? then [BranchNameInput(None)] else [])
        && if repo.Some? && Truthy(reply) then Issued(GitGateway.CreateOp(repo.value, reply.value), execSucceeds, api)
           else Idle()
    {
      var repo := tree.GetCurrentRepository();
      if repo.None? {
        return;
      }
      prompts := prompts + [BranchNameInput(None)];
      if Truthy(reply) {
        Issue(GitGateway.CreateOp(repo.value, reply.value), execSucceeds, api);
      }
    }

    /** The per-repository create-branch command (never registered). */
    method OnCreateBranchInRepo(repo: Option<Repository>, reply: Option<string>, execSucceeds: bool, api: Option<seq<Repository>>)
      requires Valid()
      modifies this`prompts, this`issued, git, tree
      ensures Valid()
      ensures prompts == old(prompts) + (if repo.Some? then [BranchNameInput(None)] else [])
      ensures if repo.Some? && Truthy(reply) then Issued(GitGateway.CreateOp(repo.value, reply.value), execSucceeds, api)
              else Idle()
    {
      if repo.None? {
        return;
      }
      prompts := prompts + [BranchNameInput(None)];
      if Truthy(reply) {
        Issue(GitGateway.CreateOp(repo.value, reply.value), execSucceeds, api);
      }
    }

    /** The checkout command hands the row straight to the gateway. */
    method OnCheckout(branch: Branch, execSucceeds: bool, api: Option<seq<Repository>>)
      requires Valid()
      modifies this`issued, git, tree
      ensures Valid() && prompts == old(prompts)
      ensures Issued(GitGateway.CheckoutOp(branch), execSucceeds, api)
    {
      Issue(GitGateway.CheckoutOp(branch), execSucceeds, api);
    }

    /** The delete command: with confirmation switched on, delete only when
        the modal's reply is the Confirm button; a dismissed modal replies
        nothing. With it off (the default), always delete. */
    method OnDelete(branch: Branch, confirmDeleteSetting: Option<bool>, reply: Option<string>,
                    execSucceeds: bool, api: Option<seq<Repository>>)
      requires Valid()
      modifies this`prompts, this`issued, git, tree
      ensures Valid()
      ensures var confirm := ConfirmDelete(confirmDeleteSetting);
        && prompts == old(prompts) + (if confirm then [DeleteWarning(branch.branchName)] else [])
        && if !confirm || reply == Some(ConfirmButton) then Issued(GitGateway.DeleteOp(branch), execSucceeds, api)
           else Idle()
    {
      if ConfirmDelete(confirmDeleteSetting) {
        prompts := prompts + [DeleteWarning(branch.branchName)];
        if reply != Some(ConfirmButton) {
          return;
        }
      }
      Issue(GitGateway.DeleteOp(branch), execSucceeds, api);
    }

    /** The rename command: ask for the new name, pre-filled with the current
        one, and rename when the reply is non-empty (even when it is the
        unchanged current name). */
    method OnRename(branch: Branch, reply: Option<string>, execSucceeds: bool, api: Option<seq<Repository>>)
      requires Valid()
      modifies this`prompts, this`issued, git, tree
      ensures Valid()
      ensures prompts == old(prompts) + [BranchNameInput(branch.branchName)]
      ensures if Truthy(reply) then Issued(GitGateway.RenameOp(branch, reply.value), execSucceeds, api)
              else Idle()
    {
      prompts := prompts + [BranchNameInput(branch.branchName)];
      if Truthy(reply) {
        Issue(GitGateway.RenameOp(branch, reply.value), execSucceeds, api);
      }
    }
  }

  /** The gateway holds either no listeners (after a refresh without the
      API) or exactly one per repository the tree shows. */
  lemma ListenersFollowTree(s: BranchSwitcher)
    requires s.Valid()
    ensures s.git.repoStateChanges == [] || s.git.repoStateChanges == GitGateway.ListenersFor(s.tree.repos)
    ensures |s.git.repoStateChanges| == 0 || |s.git.repoStateChanges| == |s.tree.repos|
  {
  }
}
