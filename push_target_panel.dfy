/** `GitPushTargetPanel`: the editable push target (remote and branch) shown for one
    repository in the push dialog. */
module PushTargetPanel {
  import opened Wrappers
  import opened RemoteBranchOrder
  import opened TargetNames

  /** `GitPushTarget`, reduced to the remote branch it pushes to. */
  datatype PushTarget = PushTarget(branch: RemoteBranch)

  /** What the panel asks of `GitRepository`: whether a branch is checked out, the
      names of its remotes (in the repository's order), whether it has no commits
      yet, and its remote-tracking branches. */
  datatype Repository = Repository(
    hasCurrentBranch: bool,
    remotes: seq<string>,
    isFresh: bool,
    remoteBranches: seq<RemoteBranch>)

  /** Outcome of `GitPushTarget.parse(repository, remoteName, branchName)`: a target,
      or the message of the `ParseException` it throws. */
  datatype ParseResult = Parsed(target: PushTarget) | ParseError(message: string)

  const DetachedHead: string := "Detached HEAD"
  const NoRemotes: string := "No remotes"
  const EmptyRepository: string := "Empty repository"
  const CantPush: string := "Can't push"

  /** The error the constructor records. Without a default target it is the first
      of these that applies: no current branch, no remotes, a fresh repository,
      and otherwise a plain "Can't push". */
  function InitialError(repository: Repository, defaultTarget: Option<PushTarget>): (e: Option<string>)
  {
    if defaultTarget.Some? then None
    else if !repository.hasCurrentBranch then Some(DetachedHead)
    else if |repository.remotes| == 0 then Some(NoRemotes)
    else if repository.isFresh then Some(EmptyRepository)
    else Some(CantPush)
  }

  /** `getTextFieldText`: the remote-operations name of the target's branch, or ""
      without a target. */
  function TextFieldText(target: Option<PushTarget>): (text: string)
  {
    if target.Some? then target.value.branch.remoteOpName else ""
  }

  /** There is an error exactly when there is no default target, and it is one of
      the four messages. */
  lemma InitialErrorIffNoTarget(repository: Repository, defaultTarget: Option<PushTarget>)
    ensures InitialError(repository, defaultTarget).Some? <==> defaultTarget.None?
    ensures InitialError(repository, defaultTarget).Some? ==>
      InitialError(repository, defaultTarget).value in {DetachedHead, NoRemotes, EmptyRepository, CantPush}
  {
  }

  /** Each message is reported exactly when its own condition holds and no condition
      of higher priority does, so the message tells which check failed first. */
  lemma InitialErrorPriority(repository: Repository, defaultTarget: Option<PushTarget>)
    ensures InitialError(repository, defaultTarget) == Some(DetachedHead) <==>
      defaultTarget.None? && !repository.hasCurrentBranch
    ensures InitialError(repository, defaultTarget) == Some(NoRemotes) <==>
      defaultTarget.None? && repository.hasCurrentBranch && |repository.remotes| == 0
    ensures InitialError(repository, defaultTarget) == Some(EmptyRepository) <==>
      defaultTarget.None? && repository.hasCurrentBranch && |repository.remotes| > 0 && repository.isFresh
    ensures InitialError(repository, defaultTarget) == Some(CantPush) <==>
      defaultTarget.None? && repository.hasCurrentBranch && |repository.remotes| > 0 && !repository.isFresh
  {
  }

  class GitPushTargetPanel {
    const repository: Repository
    /** `GitPushTarget.parse` against this panel's repository. */
    const parse: (string, string) -> ParseResult
    /** Completion suggestions handed to the target text field. */
    const completions: seq<string>

    var currentTarget: Option<PushTarget>
    /** Set once by the constructor; while set, the panel cannot change its target. */
    var error: Option<string>
    /** Text of the remote link (`myRemoteRenderedComponent`). */
    var remoteLinkText: string
    /** Text of the target link (`myTargetRenderedComponent`). */
    var targetLinkText: string
    /** Contents of the target text field (`myTargetTextField`). */
    var textFieldText: string
    var textFieldVisible: bool

    /** There is a current target exactly when there is no error, so `getValue`
        succeeds whenever `render` calls it; an error is one of the four messages and
        leaves the target link empty. */
    ghost predicate Valid()
      reads this
    {
      && (error.None? <==> currentTarget.Some?)
      && (error.Some? ==> error.value in {DetachedHead, NoRemotes, EmptyRepository, CantPush} && targetLinkText == "")
      && completions == GetTargetNames(repository.remoteBranches)
      && textFieldVisible == (|repository.remotes| > 0)
    }

    /** The constructor, followed by `updateTextField`. */
    constructor (repository: Repository, defaultTarget: Option<PushTarget>, parse: (string, string) -> ParseResult)
      ensures Valid()
      ensures this.repository == repository && this.parse == parse
      ensures currentTarget == defaultTarget
      ensures error == InitialError(repository, defaultTarget)
      ensures textFieldText == TextFieldText(defaultTarget) && targetLinkText == textFieldText
      ensures remoteLinkText == if defaultTarget.Some? then defaultTarget.value.branch.remoteName else ""
      ensures completions == GetTargetNames(repository.remoteBranches)
      ensures textFieldVisible == (|repository.remotes| > 0)
    {
      this.repository := repository;
      this.parse := parse;
      currentTarget := defaultTarget;
      var initialBranch := "";
      var initialRemote := "";
      if defaultTarget.None? {
        if !repository.hasCurrentBranch {
          error := Some(DetachedHead);
        } else if |repository.remotes| == 0 {
          error := Some(NoRemotes);
        } else if repository.isFresh {
          error := Some(EmptyRepository);
        } else {
          error := Some(CantPush);
        }
      } else {
        error := None;
        initialBranch := TextFieldText(defaultTarget);
        initialRemote := defaultTarget.value.branch.remoteName;
      }
      targetLinkText := initialBranch;
      completions := GetTargetNames(repository.remoteBranches);
      textFieldText := initialBranch;
      remoteLinkText := initialRemote;
      textFieldVisible := |repository.remotes| > 0;
    }

    /** `fireOnCancel`: the text field shows the current target again. */
    method FireOnCancel()
      requires Valid()
      modifies this`textFieldText
      ensures Valid()
      ensures textFieldText == TextFieldText(currentTarget)
      ensures error.None? ==> textFieldText == currentTarget.value.branch.remoteOpName
    {
      textFieldText := TextFieldText(currentTarget);
    }

    /** `fireOnChange`: with no error, takes the target parsed from the remote link
        and the text field, and shows the typed branch in the target link. An error,
        or a text that does not parse, changes nothing. */
    method FireOnChange()
      requires Valid()
      modifies this`currentTarget, this`targetLinkText
      ensures Valid()
      ensures error.Some? ==> currentTarget == old(currentTarget) && targetLinkText == old(targetLinkText)
      ensures error.None? && parse(remoteLinkText, textFieldText).Parsed? ==>
        currentTarget == Some(parse(remoteLinkText, textFieldText).target) && targetLinkText == textFieldText
      ensures parse(remoteLinkText, textFieldText).ParseError? ==>
        currentTarget == old(currentTarget) && targetLinkText == old(targetLinkText)
    {
      if error.Some? {
        return;
      }
      var remoteName := remoteLinkText;
      var branchName := textFieldText;
      match parse(remoteName, branchName)
      case Parsed(target) =>
        currentTarget := Some(target);
        targetLinkText := branchName;
      case ParseError(_) =>
    }

    /** `verify`: the error if there is one; otherwise no problem exactly when the
        remote link and the text field parse, and the parse message when they do not. */
    method Verify() returns (problem: Option<string>)
      ensures error.Some? ==> problem == error
      ensures error.None? ==> (problem.None? <==> parse(remoteLinkText, textFieldText).Parsed?)
      ensures error.None? && parse(remoteLinkText, textFieldText).ParseError? ==>
        problem == Some(parse(remoteLinkText, textFieldText).message)
    {
      if error.Some? {
        return error;
      }
      match parse(remoteLinkText, textFieldText)
      case Parsed(_) =>
        problem := None;
      case ParseError(message) =>
        problem := Some(message);
    }

    /** `showRemoteSelector`: with at most one remote nothing happens; otherwise the
        user picks a remote from a popup (`choice`, None when the popup is dismissed)
        and the remote link shows it. */
    method ShowRemoteSelector(choice: Option<string>)
      requires Valid()
      requires choice.Some? ==> choice.value in repository.remotes
      modifies this`remoteLinkText
      ensures Valid()
      ensures |repository.remotes| <= 1 ==> remoteLinkText == old(remoteLinkText)
      ensures |repository.remotes| > 1 ==>
        remoteLinkText == if choice.Some? then choice.value else old(remoteLinkText)
    {
      var remotes := repository.remotes;
      if |remotes| <= 1 {
        return;
      }
      if choice.Some? {
        remoteLinkText := choice.value;
      }
    }
  }
}
