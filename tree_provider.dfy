/** src/branch-tree-provider.ts: the data provider of the sidebar tree. It
    takes the gateway's repository list, publishes whether there is
    exactly one repository, and answers the tree widget's two questions:
    which rows are under a node, and how a row is drawn. */
module TreeProvider {
  import opened Models
  import opened Text
  import GitGateway

  /** `split(/\/|\\/)`: both path separators. */
  const PathSeparators: set<char> := {'/', '\\'}

  /** The last piece of a path split on either separator: the folder name,
      or the empty string when the path ends in a separator. */
  function LastSegment(path: string): (r: string)
    ensures Avoids(r, PathSeparators)
    ensures |r| <= |path| && r == path[|path| - |r|..]
    ensures |r| < |path| ==> path[|path| - |r| - 1] in PathSeparators
  {
    SplitLast(path, PathSeparators);
    var parts := Split(path, PathSeparators);
    parts[|parts| - 1]
  }

  /** The last segment after a separator is what follows that separator. */
  lemma LastSegmentAfter(dir: string, sep: char, name: string)
    requires sep in PathSeparators && Avoids(name, PathSeparators)
    ensures LastSegment(dir + [sep] + name) == name
  {
    SplitAtSeparator(dir, name, sep, PathSeparators);
    SplitWhole(name, PathSeparators);
  }

  lemma LastSegmentExamples()
    ensures LastSegment("/home/me/project") == "project"
    ensures LastSegment("C:\\work\\repo") == "repo"
    ensures LastSegment("/srv/repo/") == ""
  {
    assert "/home/me/project" == "/home/me" + ['/'] + "project";
    LastSegmentAfter("/home/me", '/', "project");
    assert "C:\\work\\repo" == "C:\\work" + ['\\'] + "repo";
    LastSegmentAfter("C:\\work", '\\', "repo");
    assert "/srv/repo/" == "/srv/repo" + ['/'] + "";
    LastSegmentAfter("/srv/repo", '/', "");
  }

  datatype Collapsible = NotCollapsible | Collapsed

  /** The command attached to a tree item: the command id, its arguments and
      the title shown for it. */
  datatype TreeCommand = TreeCommand(command: string, arguments: seq<Branch>, title: string)

  /** The decisions of `getTreeItem`; `checkIcon` stands for the check-mark
      icon whose file paths are built from the extension's folder. */
  datatype TreeItem = TreeItem(
    labelText: string,
    contextValue: TreeNodeContext,
    command: Option<TreeCommand>,
    checkIcon: bool,
    collapsibleState: Collapsible)

  /** A row with a (non-empty) branch name is a branch: the checked-out one
      is marked and has no command, any other switches to itself when
      clicked. Any other row is a collapsed repository named after the last
      segment of its path. */
  function GetTreeItem(element: Branch): (item: TreeItem)
    ensures Truthy(element.branchName) ==>
      item.labelText == element.branchName.value && item.collapsibleState == NotCollapsible
    ensures Truthy(element.branchName) && element.selected ==>
      item.contextValue == ActiveBranch && item.checkIcon && item.command.None?
    ensures Truthy(element.branchName) && !element.selected ==>
      && item.contextValue == BranchNode && !item.checkIcon
      && item.command == Some(TreeCommand(BranchCommandId(Checkout), [element], "Switch branch"))
    ensures !Truthy(element.branchName) ==>
      && item.contextValue == RepoNode && item.collapsibleState == Collapsed
      && item.command.None? && !item.checkIcon
      && item.labelText == LastSegment(element.repo.rootPath)
  {
    if Truthy(element.branchName) then
      if element.selected then
        TreeItem(element.branchName.value, ActiveBranch, None, true, NotCollapsible)
      else
        TreeItem(element.branchName.value, BranchNode,
                 Some(TreeCommand(BranchCommandId(Checkout), [element], "Switch branch")), false, NotCollapsible)
    else
      TreeItem(LastSegment(element.repo.rootPath), RepoNode, None, false, Collapsed)
  }

  /** Exactly the unselected branches carry a command, and it checks out
      the very row it is drawn for. */
  lemma CommandOnlyOnOtherBranches(element: Branch)
    ensures GetTreeItem(element).command.Some? <==> GetTreeItem(element).contextValue == BranchNode
    ensures GetTreeItem(element).contextValue == BranchNode <==> Truthy(element.branchName) && !element.selected
    ensures GetTreeItem(element).contextValue == RepoNode <==> !Truthy(element.branchName)
  {
  }

  /** What the provider tells the host. */
  datatype ProviderEvent =
    | SetSingleRepositoryContext(value: bool)   // setContext of the single-repository flag
    | FireTreeDataChanged                       // onDidChangeTreeData, whole-tree invalidation

  /** The value the single-repository flag was last set to. */
  function SingleRepositoryContext(events: seq<ProviderEvent>): Option<bool>
    decreases |events|
  {
    if events == [] then None
    else match events[|events| - 1]
      case SetSingleRepositoryContext(v) => Some(v)
      case FireTreeDataChanged => SingleRepositoryContext(events[..|events| - 1])
  }

  class BranchTreeProvider {
    const git: GitGateway.Git
    var repos: seq<Repository>
    var events: seq<ProviderEvent>

    /** The published flag agrees with the repository list. */
    ghost predicate Valid()
      reads this
    {
      SingleRepositoryContext(events) == Some(|repos| == 1)
    }

    constructor (git: GitGateway.Git)
      ensures this.git == git && repos == git.repos
      ensures events == [SetSingleRepositoryContext(|git.repos| == 1)]
      ensures Valid()
    {
      this.git := git;
      repos, events := [], [];
      new;
      UpdateRepos();
    }

    /** `updateRepos`: take the gateway's list and publish the flag. */
    method UpdateRepos()
      modifies this
      ensures repos == git.repos
      ensures events == old(events) + [SetSingleRepositoryContext(|repos| == 1)]
      ensures Valid()
    {
      repos := git.GetRepositories();
      events := events + [SetSingleRepositoryContext(|repos| == 1)];
    }

    /** The `reposChanged` subscription: re-read first, then invalidate. */
    method OnReposChanged()
      modifies this
      ensures repos == git.repos
      ensures events == old(events) + [SetSingleRepositoryContext(|repos| == 1), FireTreeDataChanged]
      ensures Valid()
    {
      UpdateRepos();
      events := events + [FireTreeDataChanged];
    }

    /** `getCurrentRepository`: the repository when it is the only one. */
    function GetCurrentRepository(): (r: Option<Repository>)
      reads this
      ensures r.Some? <==> |repos| == 1
      ensures r.Some? ==> r.value == repos[0]
    {
      if |repos| == 1 then Some(repos[0]) else None
    }

    /** `getChildren`. `element` is absent at the root; `gitBranch` gives,
        for a working directory, what `git branch` prints there. */
    function GetChildren(element: Option<Branch>, gitBranch: string -> string): (r: seq<Branch>)
      reads this
      ensures |repos| == 0 ==> r == []
      ensures element.None? && |repos| == 1 ==>
        r == GitGateway.GetBranches(repos[0], gitBranch(repos[0].rootPath))
      ensures element.None? && |repos| > 1 ==>
        |r| == |repos| && forall k :: 0 <= k < |r| ==> r[k] == RepositoryRow(repos[k])
      ensures element.Some? && |repos| > 0 ==>
        r == if Truthy(element.value.branchName) then []
             else GitGateway.GetBranches(element.value.repo, gitBranch(element.value.repo.rootPath))
    {
      if |repos| < 1 then []
      else if element.None? then
        if |repos| == 1 then GitGateway.GetBranches(repos[0], gitBranch(repos[0].rootPath))
        else seq(|repos|, k requires 0 <= k < |repos| reads this => RepositoryRow(repos[k]))
      else if !Truthy(element.value.branchName) then
        GitGateway.GetBranches(element.value.repo, gitBranch(element.value.repo.rootPath))
      else []
    }
  }

  /** With one repository the root lists its branches directly: every root
      row is a branch row of that repository. */
  lemma SingleRepositoryRootIsFlat(p: BranchTreeProvider, gitBranch: string -> string)
    requires |p.repos| == 1
    ensures forall b :: b in p.GetChildren(None, gitBranch) ==>
      b.repo == p.repos[0] && b.branchName.Some?
  {
  }

  /** With several repositories the tree has two levels: root row `k`
      is drawn as repository `k` and opens onto that repository's branches. */
  lemma MultiRepositoryTree(p: BranchTreeProvider, gitBranch: string -> string, k: nat)
    requires |p.repos| > 1 && k < |p.repos|
    ensures var row := p.GetChildren(None, gitBranch)[k];
      && GetTreeItem(row).contextValue == RepoNode
      && GetTreeItem(row).labelText == LastSegment(p.repos[k].rootPath)
      && p.GetChildren(Some(row), gitBranch) == GitGateway.GetBranches(p.repos[k], gitBranch(p.repos[k].rootPath))
  {
  }

  /** A row with a name is a leaf. */
  lemma BranchRowIsLeaf(p: BranchTreeProvider, gitBranch: string -> string, b: Branch)
    requires Truthy(b.branchName)
    ensures p.GetChildren(Some(b), gitBranch) == []
    ensures GetTreeItem(b).contextValue == BranchNode || GetTreeItem(b).contextValue == ActiveBranch
  {
  }

  /** A row whose name is the empty string (a blank line of `git branch`
      output) is taken for a repository row: drawn as the repository and
      opening onto the repository's branches again. */
  lemma EmptyNameRowActsAsRepository(p: BranchTreeProvider, gitBranch: string -> string, b: Branch)
    requires b.branchName == Some("") && |p.repos| > 0
    ensures p.GetChildren(Some(b), gitBranch) == GitGateway.GetBranches(b.repo, gitBranch(b.repo.rootPath))
    ensures GetTreeItem(b).contextValue == RepoNode
  {
  }

  /** The current repository exists exactly when the published flag says
      there is a single repository. */
  lemma CurrentRepositoryMatchesContext(p: BranchTreeProvider)
    requires p.Valid()
    ensures p.GetCurrentRepository().Some? <==> SingleRepositoryContext(p.events) == Some(true)
  {
  }
}
