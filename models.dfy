/** The value types the extension passes around: the host's repository, the
    `Branch` row of src/models/branch.ts, and the string enumerations of
    tree-node contexts and branch commands. */
module Models {

  datatype Option<T> = None | Some(value: T)

  /** A repository of the host's git extension. The extension reads only the
      file-system path of its root folder (`rootUri.fsPath`). */
  datatype Repository = Repository(rootPath: string)

  /** One row of the tree. `branchName` is absent (or empty) on a
      repository-grouping row. `selected` stands for the optional boolean of
      the source, whose absence reads as false wherever it is tested. The two
      upstream fields exist in the record but no code path fills them. */
  datatype Branch = Branch(
    repo: Repository,
    branchName: Option<string>,
    selected: bool,
    upstreamState: Option<string>,
    upstreamBranchName: Option<string>)

  /** The row built for a repository: nothing but the repository. */
  function RepositoryRow(repo: Repository): Branch {
    Branch(repo, None, false, None, None)
  }

  /** JavaScript truthiness of an optional string: present and non-empty. */
  predicate Truthy(s: Option<string>) {
    s.Some? && s.value != ""
  }

  /** A template literal `${s}` of an optional string: an absent value
      prints as `undefined`. */
  function Interpolate(s: Option<string>): string {
    match s
    case None => "undefined"
    case Some(v) => v
  }

  /** src/enums/tree-node-context.enum.ts */
  datatype TreeNodeContext = BranchNode | BranchWithUpstream | ActiveBranch | ActiveBranchWithUpstream | RepoNode

  function ContextValue(c: TreeNodeContext): string {
    match c
    case BranchNode => "branch"
    case BranchWithUpstream => "branchWithUpstream"
    case ActiveBranch => "activeBranch"
    case ActiveBranchWithUpstream => "activeBranchWithUpstream"
    case RepoNode => "repo"
  }

  /** Distinct contexts are distinct strings, so a menu condition on the
      string selects exactly one kind of node. */
  lemma ContextValueInjective(c: TreeNodeContext, d: TreeNodeContext)
    ensures ContextValue(c) == ContextValue(d) ==> c == d
  {
  }

  /** src/enums/branch-commands.enum.ts */
  datatype BranchCommand = Checkout | Delete | Rename | BranchFrom | SetUpstream | DeleteUpstream

  function BranchCommandId(c: BranchCommand): string {
    match c
    case Checkout => "scm-local-branches.branch.checkout"
    case Delete => "scm-local-branches.branch.delete"
    case Rename => "scm-local-branches.branch.rename"
    case BranchFrom => "scm-local-branches.branch.branch-from"
    case SetUpstream => "scm-local-branches.branch.set-upstream"
    case DeleteUpstream => "scm-local-branches.branch.delete-upstream"
  }
}
