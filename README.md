# Git push-target panel, modelled in Dafny

This project models `GitPushTargetPanel` from the git4idea plugin. The panel is the row of the push dialog where the user picks the remote and the remote branch that one repository pushes to. It has three parts:

- **Remote-branch order** (`MyRemoteBranchComparator`). Branches on `origin` come first. Branches on other remotes follow, ordered by remote name. Branches on the same remote are ordered by their local-operations name. `getTargetNames` sorts the repository's remote branches this way and returns their remote-operations names. These names are the completion suggestions of the target text field.
- **Error selection** in the constructor. Without a default target the panel records exactly one error, in this priority: "Detached HEAD", "No remotes", "Empty repository", "Can't push".
- **Panel state**: the current target, the sticky error, the remote link, the target link and the target text field. `fireOnChange`, `fireOnCancel`, `verify` and `showRemoteSelector` act on this state.

Files:

- `java_string.dfy` (`JavaString`): Java's `String.compareTo` on character sequences. It is related to a textbook lexicographic order. Its equality, antisymmetry and transitivity laws are proved.
- `remote_branch_order.dfy` (`RemoteBranchOrder`): the branch record, the `origin` constant and the comparator. It proves the comparator's ordering rules and the `java.util.Comparator` contract. The comparator is a total preorder, and it ties two branches exactly when their remote and local names agree.
- `target_names.dfy` (`TargetNames`): the sort and `getTargetNames`. The model's sort is a stable insertion sort. Its result is proved sorted, a permutation of the input and stable. It is also proved to be the only result a stable sort can give. When branches that the comparator ties are equal values, as they are taken to be for real remote branches, every sorted permutation gives the same names, stable or not.
- `push_target_panel.dfy` (`PushTargetPanel`): the repository and target data, the error selection, and the class `GitPushTargetPanel`, whose methods change its fields in place. `Valid()` states the class invariant: there is a current target exactly when there is no error.
- `wrappers.dfy` (`Wrappers`): `Option`, which stands for Java's nullable references.

`GitPushTarget.parse` is a parameter of the panel (`parse`). It is a total function from (remote text, branch text) to a target or a parse-error message. `GitRemote.ORIGIN_NAME` is the constant `"origin"`.

## Model

| member | source | states |
|---|---|---|
| JavaString.CompareToZeroIff | plugins/git4idea/src/git4idea/push/GitPushTargetPanel.java:239-240 | `compareTo` of two remote or local names is 0 exactly when the names are equal |
| JavaString.CompareToAntisymmetric | plugins/git4idea/src/git4idea/push/GitPushTargetPanel.java:239 | swapping the operands of `compareTo` negates the result |
| JavaString.CompareToTransitive | plugins/git4idea/src/git4idea/push/GitPushTargetPanel.java:239 | a negative `compareTo(a, b)` and a negative `compareTo(b, c)` give a negative `compareTo(a, c)` |
| JavaString.CompareToTransitiveNonStrict | plugins/git4idea/src/git4idea/push/GitPushTargetPanel.java:249 | the same holds for "at most 0" |
| JavaString.CompareToAfterPrefix | plugins/git4idea/src/git4idea/push/GitPushTargetPanel.java:239 | after a common prefix of length k, `compareTo` equals the comparison of the two remainders |
| JavaString.CompareToNegativeIff | plugins/git4idea/src/git4idea/push/GitPushTargetPanel.java:239 | `compareTo` is negative exactly when the first string is lexicographically smaller: a proper prefix, or smaller at the first differing character |
| JavaString.CompareToNegativeWitness | plugins/git4idea/src/git4idea/push/GitPushTargetPanel.java:239 | a negative `compareTo` yields the lexicographic witness position |
| JavaString.LexLessIrreflexive | plugins/git4idea/src/git4idea/push/GitPushTargetPanel.java:249 | no name is lexicographically smaller than itself |
| RemoteBranchOrder.OriginFirst | plugins/git4idea/src/git4idea/push/GitPushTargetPanel.java:239-245 | a branch on origin compares as -1 against a branch on any other remote, and that comparison reversed gives 1 |
| RemoteBranchOrder.OtherRemotesByName | plugins/git4idea/src/git4idea/push/GitPushTargetPanel.java:239-247 | for branches on two different remotes, neither of them origin, the result is the `compareTo` of the remote names, which is non-zero |
| RemoteBranchOrder.SameRemoteByLocalName | plugins/git4idea/src/git4idea/push/GitPushTargetPanel.java:237-249 | for branches on the same remote, the result is the `compareTo` of their local-operations names |
| RemoteBranchOrder.CompareZeroIff | plugins/git4idea/src/git4idea/push/GitPushTargetPanel.java:236-250 | the comparator returns 0 exactly when the remote names and the local names are both equal |
| RemoteBranchOrder.CompareNegativeIff | plugins/git4idea/src/git4idea/push/GitPushTargetPanel.java:234-251 | the comparator is negative exactly when the reference order puts the first branch first: origin rank, then remote name, then local name, each lexicographic |
| RemoteBranchOrder.CompareAntisymmetric | plugins/git4idea/src/git4idea/push/GitPushTargetPanel.java:234-251 | `compare(b, a) == -compare(a, b)`, which is stronger than the sign rule of the `Comparator` contract |
| RemoteBranchOrder.CompareConsistentOnEqual | plugins/git4idea/src/git4idea/push/GitPushTargetPanel.java:234-251 | branches that compare as 0 give the same result against every third branch, in either operand position |
| RemoteBranchOrder.CompareTransitive | plugins/git4idea/src/git4idea/push/GitPushTargetPanel.java:234-251 | "less than" under the comparator is transitive |
| RemoteBranchOrder.CompareTransitiveNonStrict | plugins/git4idea/src/git4idea/push/GitPushTargetPanel.java:234-251 | "at most" under the comparator is transitive, so the comparator is a total preorder |
| TargetNames.Insert | plugins/git4idea/src/git4idea/push/GitPushTargetPanel.java:225 | one insertion step adds exactly the inserted branch to the multiset of branches |
| TargetNames.SortBranches | plugins/git4idea/src/git4idea/push/GitPushTargetPanel.java:225 | the sort returns a permutation of the remote branches |
| TargetNames.InsertSorted | plugins/git4idea/src/git4idea/push/GitPushTargetPanel.java:225 | inserting into a sorted sequence keeps it sorted |
| TargetNames.PrependSorted | plugins/git4idea/src/git4idea/push/GitPushTargetPanel.java:225 | a branch at most every branch of a sorted sequence can be put in front of it and the result stays sorted |
| TargetNames.SortBranchesSorted | plugins/git4idea/src/git4idea/push/GitPushTargetPanel.java:225 | the sort's result is sorted by the comparator |
| TargetNames.PeersInsert | plugins/git4idea/src/git4idea/push/GitPushTargetPanel.java:225 | an inserted branch goes in front of the branches tied with it, and leaves every other group of tied branches as it was |
| TargetNames.SortBranchesStable | plugins/git4idea/src/git4idea/push/GitPushTargetPanel.java:225 | branches the comparator ties keep their relative order |
| TargetNames.SortBranchesIsStableSort | plugins/git4idea/src/git4idea/push/GitPushTargetPanel.java:225 | the sort's result is sorted, a permutation of the input and stable |
| TargetNames.PeersMember | plugins/git4idea/src/git4idea/push/GitPushTargetPanel.java:225 | every branch in a group of tied branches comes from the sequence and is tied with the group's key |
| TargetNames.HeadPrecedesPeers | plugins/git4idea/src/git4idea/push/GitPushTargetPanel.java:225 | the head of a sorted sequence is at most any key `k` that some branch of the sequence is tied with |
| TargetNames.SortedSamePeersEqual | plugins/git4idea/src/git4idea/push/GitPushTargetPanel.java:225 | two sorted sequences of equal length with the same groups of tied branches, in the same order, are equal |
| TargetNames.StableSortUnique | plugins/git4idea/src/git4idea/push/GitPushTargetPanel.java:225 | every stable sort of the branches equals this sort's result |
| TargetNames.PeersRepeat | plugins/git4idea/src/git4idea/push/GitPushTargetPanel.java:225 | when every branch tied with a key is one value, the tied group is that value repeated as often as it occurs |
| TargetNames.SortedPermutationGivesTargetNames | plugins/git4idea/src/git4idea/push/GitPushTargetPanel.java:224-231 | with no stability assumed: when tied branches are equal values, every sorted permutation of the branches is a stable sort, equals this sort's result, and gives exactly the names `getTargetNames` returns |
| TargetNames.GetTargetNames | plugins/git4idea/src/git4idea/push/GitPushTargetPanel.java:224-232 | one name per remote branch, its remote-operations name, in the order of a stable sort of the branches by the comparator; every stable sort gives these same names |
| PushTargetPanel.InitialErrorIffNoTarget | plugins/git4idea/src/git4idea/push/GitPushTargetPanel.java:73-90 | an error is recorded exactly when there is no default target, and it is one of the four messages |
| PushTargetPanel.InitialErrorPriority | plugins/git4idea/src/git4idea/push/GitPushTargetPanel.java:73-86 | each message is recorded exactly when its own condition holds and no condition of higher priority does: "Detached HEAD", then "No remotes", then "Empty repository", then "Can't push" |
| PushTargetPanel.GitPushTargetPanel.constructor | plugins/git4idea/src/git4idea/push/GitPushTargetPanel.java:66-113 | the current target is the default target; the error is the selected one; with a default target, the text field and target link show its remote-operations name and the remote link shows its remote; without one, all three are empty; the completions are `getTargetNames`; the text field is visible exactly when there are remotes; the invariant holds |
| PushTargetPanel.GitPushTargetPanel.FireOnCancel | plugins/git4idea/src/git4idea/push/GitPushTargetPanel.java:176-184 | the text field is reset to the current target's remote-operations name, or to "" without a target; with no error that target exists; nothing else changes |
| PushTargetPanel.GitPushTargetPanel.FireOnChange | plugins/git4idea/src/git4idea/push/GitPushTargetPanel.java:186-200 | with an error set, the target and target link stay the same; with no error and a successful parse of (remote link, text field), the target becomes the parsed one and the target link shows the typed branch; a failed parse changes nothing; the invariant is kept |
| PushTargetPanel.GitPushTargetPanel.Verify | plugins/git4idea/src/git4idea/push/GitPushTargetPanel.java:202-215 | an error set in the panel is returned; with no error, no problem is returned exactly when (remote link, text field) parses, and otherwise the parse message is returned |
| PushTargetPanel.GitPushTargetPanel.ShowRemoteSelector | plugins/git4idea/src/git4idea/push/GitPushTargetPanel.java:116-133 | with at most one remote the remote link is unchanged; otherwise it shows the remote the user picks, and stays unchanged when the popup is dismissed |

## Left out

- Swing layout and rendering (`render`, the `BorderLayout` panels, `JBLabel`, the separator, text attributes, the popup's placement). These are host UI with no state of the panel's own. The link components are modelled as their link text. The `<a href=''>…</a>` markup the constructor wraps around the initial texts is left out.
- `getValue` is not modelled as an operation. Its assertion that a target exists is covered by the invariant: with no error there is a current target.
- `setFireOnChangeAction` and the `myFireOnChangeAction` callback are not modelled. Neither is the `LOG.error` call in `fireOnChange`'s parse-failure branch. Both are host callbacks or logging.
- `GitPushTarget.parse`, `GitRepository`, `GitRemote` and `GitRemoteBranch` are not part of this model. Parsing is the panel's `parse` parameter. The repository is reduced to the four facts the panel reads. A remote branch is reduced to its three names. The `isNewBranchCreated` flag of a target is used only by rendering.
- `ContainerUtil.sorted` is not part of this model, and nothing here shows whether it is stable. The model's sort is a stable insertion sort. `SortedPermutationGivesTargetNames` shows that the choice does not matter when tied branches are equal values, as they are taken to be for real remote branches.
- TargetNames.GetTargetNames: assumes the sort is stable. Two branches that the comparator ties but that carry different remote-operations names may come out in the other order in the source. Such ties are taken not to arise for real remote branches, whose local-operations name is built from the remote name and the remote-operations name (`GitRemoteBranch` is not part of this model).
- JavaString.CompareTo: compares Unicode scalar values, not UTF-16 code units. Java compares code units, so the two orders differ only for names with characters outside the Basic Multilingual Plane. The laws proved about the order hold either way.
- ShowRemoteSelector: the popup's selection callback is folded into the same step as opening the popup. In the source it runs later, when the user chooses. The callback's call to the fire-on-change action is not modelled.
- The text field's own editing, and the `ValidationInfo` component reference that `verify` attaches, are not modelled. `Verify` returns only the message.
- `WatchNodeImpl.java` (debugger watch node) and `GithubCommitCommentRaw.java` (REST data object) are not part of this model. They forward to host interfaces and copy fields, with no logic of their own to state.
