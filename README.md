# synctool core, modelled in Dafny

synctool keeps the configuration files of a cluster in step from one master
node. This project models four parts of it and proves properties of the
model:

- **The overlay tree** (`src/synctool/overlay.py`). A directory entry
  `name._group` belongs to `group`. An entry `name.post` is a post script for
  `name`. An entry's importance is the rank of its group in the node's group
  list. The walk lists every directory of the tree and drops ignored entries
  and entries for other groups. It sorts the rest with post scripts first,
  then by importance, and records the post scripts of each directory in
  `post_dict`. A destination seen earlier in the walk is skipped, because
  one `duplicates` set is shared by the whole walk. A callback runs on every
  selected file, and on every directory after its contents. Once the
  callback answers false the walk stops. `visit`, `find` and `find_terse`
  are built on top of the walk.
- **Parallel runs** (`src/synctool/parallel.py`). `do` cuts the work into
  one contiguous chunk per worker. It forks one child per chunk, and each
  child runs its chunk in order. `join` waits until no child is left.
- **The configuration** (`src/synctool_config.py`). `read_config_file`
  reads the file line by line. A `#` starts a comment and a trailing
  backslash continues a line. Each statement is carried out at once: a
  setting with its checks, or an entry in the group and node tables
  (`NODES`, `GROUP_DEFS`, `INTERFACES`, `IGNORE_GROUPS`). The model also
  covers the table operations: `expand_grouplist`, `insert_group`,
  `remove_ignored_groups`, `add_myhostname`, `get_nodes_in_groups`,
  `make_all_groups`, `get_groups`, `get_node_interface`, `set_action`, and
  the implicit groups that `read_config` adds.
- **The command line of `dsh-pkg`** (`src/synctool_master_pkg.py`).
  `rearrange_options` moves package names behind the options. The second
  loop of `get_options` counts the actions and checks `-m`, `-N` and `-z`.
  It builds the argument lists for the master and for the nodes.

Code that updates state step by step is imperative Dafny. The `Walker`
class holds the `duplicates` set of one walk. The `Processes` class holds
`NUM_PROC` and `ALL_PIDS`. The `Config` class holds the configuration
tables. Methods with loops are proved against pure functions (`WalkDir`,
`Partition`/`Chunk`, `JoinSpec`, `Expand`, `ReadFrom`/`RunStmts`,
`ParseOptions`), and lemmas state what these functions promise.

The following are inputs to the model:

- the directory listing of the overlay, as a tree of `Entry` values;
- `fnmatch`, as a function parameter;
- the outcome of `os.fork()` for each rank, and the sequence of `os.wait()`
  outcomes;
- the files and directories the configuration reader inspects (`Disk`);
- the host name;
- the key order of each Python dictionary, as a sequence that lists every
  key once (`KeyOrder`).

Python 2's `cmp`-based `list.sort` is modelled as a stable sort by the key
the comparator induces. `ComparatorIsKeyOrder` and
`ImportanceComparatorIsKeyOrder` prove that the two orders agree.

## Model

| member | source | states |
|---|---|---|
| Classify.SplitExt | src/synctool/overlay.py:192 | `os.path.splitext`: name and extension concatenate to the input; a nonempty extension starts with its only dot and follows a part that is not all dots; no extension means every dot is leading |
| Classify.SplitExtension | src/synctool/overlay.py:185-231 | a classified entry keeps its source name; its destination is a prefix of it and nonempty; an untagged entry has the last importance; otherwise the name is `dest.post` with the last importance, or `dest[.post]._g` where `g` is the node group at that importance |
| Classify.GroupTagged | src/synctool/overlay.py:203-231 | a `name._tag` entry can only be classified for one of the node's groups, with that group's rank as importance and `name` (less `.post`) as destination |
| Classify.SplitExtAppend | src/synctool/overlay.py:192 | `base.ext` splits into `base` and `.ext` when `ext` has no dot and `base` is not all dots |
| Classify.SplitExtNoDot | src/synctool/overlay.py:192 | a name without a dot has no extension |
| Classify.TaggedEntry | src/synctool/overlay.py:203-231 | `base._g` for a node group `g` is a plain entry for `base` with `g`'s index as importance |
| Classify.TaggedPost | src/synctool/overlay.py:225-231 | `base.post._g` is a post script for `base` with `g`'s index as importance |
| Classify.GenericPost | src/synctool/overlay.py:196-198 | `base.post` is a post script for `base` for every node, with the importance of untagged entries |
| Classify.ForeignTag | src/synctool/overlay.py:207-223 | a tag that is not a node group drops the entry, and it is reported exactly when the tag is no group at all |
| Classify.UntaggedEntry | src/synctool/overlay.py:192-194 | a name without a dot is an untagged entry for itself with the last importance |
| Classify.OtherExt | src/synctool/overlay.py:200-201 | `base.ext` with any other extension, or a trailing dot, is an untagged entry for the whole name with the last importance |
| Classify.EmptyTag | src/synctool/overlay.py:203-205 | `base._`, a tag without a group name, is an untagged entry for the whole name with the last importance |
| Classify.DroppedExactly | src/synctool/overlay.py:207-223 | an entry is dropped exactly when its extension is `._t` for a nonempty `t` outside the node's groups, and reported exactly when `t` is no group at all |
| Classify.ComparatorIsKeyOrder | src/synctool/overlay.py:234-249 | `_sort_by_importance_post_first` orders two entries exactly as (post first, importance) keys do, and ties exactly on equal keys |
| Classify.ImportanceComparatorIsKeyOrder | src/synctool/overlay.py:159-161 | `_sort_by_importance` orders two pairs exactly as their importances do |
| Sorting.WithKey | src/synctool/overlay.py:286 | the elements with one key are no more than all the elements |
| Sorting.WithKeyMembers | src/synctool/overlay.py:286 | an element is among those with key `k` exactly when it is in the list and has key `k` |
| Sorting.Insert | src/synctool/overlay.py:286 | insertion adds exactly one element |
| Sorting.Sort | src/synctool/overlay.py:286 | `list.sort` returns a permutation of its input |
| Sorting.SortSorted | src/synctool/overlay.py:286 | the sorted list is ordered by key |
| Sorting.SortKeeps | src/synctool/overlay.py:286 | a property of every input element holds of every sorted element |
| Sorting.SortStable | src/synctool/overlay.py:286 | elements with equal keys keep their relative order |
| Seqs.IndexOf | src/synctool/overlay.py:171 | `list.index`: the first position of the element, or -1 (the ValueError) exactly when it is absent |
| Seqs.RemoveFirst | src/synctool_config.py:808 | `list.remove`: exactly one occurrence fewer of the element; the list is unchanged when it is absent |
| Seqs.RemoveFirstCut | src/synctool_config.py:808 | the removal cuts out exactly the first occurrence |
| Seqs.RemoveFirstSubsequence | src/synctool_config.py:808 | the other elements keep their order |
| Seqs.RemoveFirstDistinct | src/synctool_config.py:808 | on a list without duplicates the element is gone, no duplicate appears and every other element stays |
| Seqs.RemoveFirstAbsent | src/synctool_config.py:808 | removal adds no element |
| Seqs.Dedupe | src/synctool_config.py:742-745 | the de-duplicated list holds exactly the elements of the input, each once |
| Seqs.DedupeOrder | src/synctool_config.py:742-745 | the elements come in the order of their first occurrence |
| Seqs.IndexOfSnoc | src/synctool/overlay.py:171 | appending an element does not move the first occurrence of a present element; an absent element that is appended is found at the end |
| Text.Strip | src/synctool_config.py:201 | `string.strip`: no longer than its input, and empty exactly when the input is all whitespace |
| Text.StripShape | src/synctool_config.py:201-206 | the stripped text is the slice of the input after its leading whitespace; it neither starts nor ends with whitespace, and only whitespace follows it |
| Text.Split | src/synctool_config.py:213 | `string.split`: every token is nonempty and free of whitespace |
| Text.SplitJoin | src/synctool_config.py:207-213 | text joined with one whitespace character splits into the tokens of both parts |
| Text.Lower | src/synctool_config.py:222 | `string.lower`: same length, each character ASCII lower-cased |
| Text.Find | src/synctool_config.py:197 | `string.find` of a character: its first index, or -1 exactly when it is absent |
| Text.RFind | src/synctool/overlay.py:192 | `rfind`: the last index of the character, or -1 |
| Text.FindSub | src/synctool/overlay.py:103 | `find('...')`: the first position where the pattern occurs, or -1 when it occurs nowhere |
| Text.JoinPath | src/synctool/overlay.py:76-78 | `os.path.join`: an absolute second part replaces the first; otherwise the result starts with the first part and ends with the second |
| Text.ParseIntShape | src/synctool_config.py:690 | `int(s)` accepts only an optional sign, optional whitespace after it, and a nonempty run of digits, and a blank string is an error |
| Text.ParseIntSigned | src/synctool_master_pkg.py:298-300 | `int()` reads a sign, any whitespace after it, and digits as the digits' value with that sign, as C's `strtol` does for `-N "+ 4"` |
| Text.ParseIntDecimal | src/synctool_config.py:690 | a plain run of decimal digits reads as its value |
| Overlay.Candidates | src/synctool/overlay.py:258-282 | every element of `arr` comes from the directory listing |
| Overlay.Arrange | src/synctool/overlay.py:286 | every element of the sorted `arr` comes from the directory listing |
| OverlayOrder.ArrangeOrder | src/synctool/overlay.py:234-286 | the directory's entries are a permutation of the candidates, post scripts first, ascending importance within each class, and equal keys keep the listing order |
| OverlayOrder.PostDictKeys | src/synctool/overlay.py:288-298 | `post_dict` has an entry for exactly the destinations of post scripts |
| OverlayOrder.PostDictSnoc | src/synctool/overlay.py:288-298 | one more entry adds its post script only if its destination is not yet in `post_dict` |
| OverlayOrder.PostDictFirstWins | src/synctool/overlay.py:288-298 | the first post script for a destination is the one recorded |
| OverlayOrder.PostDictNoPosts | src/synctool/overlay.py:288-298 | entries that are not post scripts leave `post_dict` alone |
| OverlayOrder.PostsComplete | src/synctool/overlay.py:284-298 | in a list with post scripts first, `post_dict` is complete at the first other entry |
| OverlayOrder.PostsCompleteBeforeOthers | src/synctool/overlay.py:284-298 | at any plain entry of a sorted directory, `post_dict` already holds the post scripts of the whole directory |
| OverlayOrder.LeadingPosts | src/synctool/overlay.py:286-298 | the post scripts at the head of the sorted list, up to its first plain entry |
| OverlayOrder.PostsThenPlain | src/synctool/overlay.py:288-345 | the loop over the leading post scripts only builds `post_dict`, and goes on from the first plain entry with the complete one |
| OverlayOrder.WalkDirFullPostDict | src/synctool/overlay.py:284-347 | `_walk_subtree` on a directory is its loop from the first plain entry with the directory's complete `post_dict`, which every later entry, and so every call the directory makes, receives unchanged |
| OverlayOrder.ToplevelSelection | src/synctool/overlay.py:164-182 | `_toplevel` returns exactly the top-level entries named after one of the node's groups, each with its group's index, in ascending index |
| OverlayOrder.ToplevelSound | src/synctool/overlay.py:164-182 | every returned directory is a top-level entry of one of my groups, with that group's index |
| OverlayOrder.ToplevelComplete | src/synctool/overlay.py:164-182 | every top-level entry named after one of my groups is returned |
| OverlayOrder.RootCandidatesSound | src/synctool/overlay.py:167-177 | the unsorted list holds only top-level entries of my groups |
| OverlayOrder.RootCandidatesComplete | src/synctool/overlay.py:167-177 | the unsorted list holds every top-level entry of my groups |
| OverlayWalk.DirStepSound | src/synctool/overlay.py:300-319 | visiting a directory keeps `duplicates` equal to the destinations of the visited files |
| OverlayWalk.FileStepSound | src/synctool/overlay.py:335-345 | visiting a new file destination and adding it to `duplicates` keeps that invariant and keeps file destinations distinct |
| OverlayWalk.WalkDirSound | src/synctool/overlay.py:252-347 | `_walk_subtree` keeps `duplicates` equal to the destinations of the visited files, none visited twice |
| OverlayWalk.ProcessItemsSound | src/synctool/overlay.py:300-345 | the loop over one directory's entries keeps that invariant |
| OverlayWalk.VisitRootsSound | src/synctool/overlay.py:359-364 | the walks of the top-level directories, sharing one set, keep it too |
| OverlayWalk.VisitFilesOnce | src/synctool/overlay.py:335-364 | in one `visit` no destination reaches the callback twice as a file, whatever the callback answers |
| OverlayWalk.WalkDirExtends | src/synctool/overlay.py:252-347 | a walk only appends to the calls made so far |
| OverlayWalk.ProcessItemsExtends | src/synctool/overlay.py:300-345 | the loop over one directory only appends calls |
| OverlayWalk.VisitRootsExtends | src/synctool/overlay.py:359-364 | the top-level loop only appends calls |
| OverlayWalk.WalkDirCompletes | src/synctool/overlay.py:347 | with a callback that accepts everything, `_walk_subtree` returns true |
| OverlayWalk.ProcessItemsCompletes | src/synctool/overlay.py:300-347 | the same holds for the loop over one directory |
| OverlayWalk.WalkDirStops | src/synctool/overlay.py:307-345 | compared with the full walk, a walk either ends in the same state having accepted every call, or stops right after the first refused call, with its calls a prefix of the full walk's |
| OverlayWalk.ProcessItemsStops | src/synctool/overlay.py:300-347 | the same relation for the loop over one directory |
| OverlayWalk.DirStops | src/synctool/overlay.py:307-317 | the same relation after a subdirectory entry |
| OverlayWalk.VisitRootsStops | src/synctool/overlay.py:361-364 | once the callback refuses, no later top-level directory is walked |
| OverlayWalk.FirstWithDest | src/synctool/overlay.py:367-376 | the first call with the destination, or none exactly when no call has it |
| OverlayWalk.FoundWhenStopped | src/synctool/overlay.py:367-390 | a search stopped by `_find_callback` finds the first call of the full walk with the target |
| OverlayWalk.FindIsFirstMatch | src/synctool/overlay.py:367-390 | `find` returns the first object of the full walk whose destination is the target, or None when there is none |
| OverlayWalker.MatchesWildcard | src/synctool/overlay.py:267-276 | the wildcard loop answers true exactly when some ignore pattern matches the name |
| OverlayWalker.ListEntry | src/synctool/overlay.py:259-282 | one turn of the listing loop drops ignored names, wildcard matches and names for other groups, and joins the paths of the rest |
| OverlayWalker.Listing | src/synctool/overlay.py:258-282 | the listing loop builds `arr` from the entries in listing order |
| OverlayWalker.Walker.constructor | src/synctool/overlay.py:359 | a walk starts with an empty `duplicates` set and no calls |
| OverlayWalker.Walker.WalkDirectory | src/synctool/overlay.py:300-319 | a subdirectory is walked first; the callback then runs on the directory itself only if that walk went on to the end |
| OverlayWalker.Walker.SelectFile | src/synctool/overlay.py:335-345 | a new destination is added to `duplicates` and handed to the callback with the directory's `post_dict` |
| OverlayWalker.Walker.WalkSubtree | src/synctool/overlay.py:252-347 | the in-place walk ends with the shared set, calls and result of the walk function |
| OverlayWalker.Visit | src/synctool/overlay.py:350-364 | `visit` makes the same calls as the walk function from a fresh set |
| OverlayWalker.LastIfDest | src/synctool/overlay.py:367-390 | `_FOUND` is the last call when its destination is the target, else None |
| OverlayWalker.Find | src/synctool/overlay.py:379-390 | `find` returns the first object of the complete walk whose destination is the target |
| OverlayTerse.Matches | src/synctool/overlay.py:127-138 | `matches` holds no more entries than the file list |
| OverlayTerse.MatchesMembers | src/synctool/overlay.py:127-138 | an entry is in `matches` exactly when it is in the list, is longer than the ending, and ends with it |
| OverlayTerse.TerseFoundUnique | src/synctool/overlay.py:140-156 | the terse lookup finds an entry exactly when it is the only match, and that entry is in the list and matches |
| OverlayTerse.MatchesAsWrittenAgrees | src/synctool/overlay.py:130-138 | with a nonempty ending the quick last-character test skips only entries that cannot match |
| OverlayTerse.TerseEmptyEndingCrashes | src/synctool/overlay.py:112-133 | a terse path ending in `...` raises IndexError in the code as written, although one entry matches |
| OverlayTerse.TestEnding | src/synctool/overlay.py:130-138 | one entry's test answers exactly whether it matches the ending |
| OverlayTerse.FindTerse | src/synctool/overlay.py:94-156 | `find_terse` agrees with the terse lookup and never raises; a path without `...` gives `NotTerse`, where the source calls `find` |
| Parallel.PartitionBounds | src/synctool/parallel.py:31-39 | short work runs one item per worker; otherwise `NUM_PROC` workers share it in chunks of the least size that covers it |
| Parallel.PartitionCovers | src/synctool/parallel.py:31-39 | the chunk size is positive and the chunks of all workers together reach the end of the work |
| Parallel.Divide | src/synctool/parallel.py:31-39 | the computed `num_proc` and `part` are the partition |
| Parallel.Chunk | src/synctool/parallel.py:62-70 | a worker's chunk is at most `part` items |
| Parallel.ChunkEmpty | src/synctool/parallel.py:62-70 | a chunk is empty exactly when its rank's lower bound is at or past the end of the work, as for ranks 4 and 5 of 7 items on 6 workers |
| Parallel.ChunksPrefix | src/synctool/parallel.py:62-70 | the chunks of the first `n` ranks are the corresponding prefix of the work |
| Parallel.ChunksCoverWork | src/synctool/parallel.py:41-70 | the chunks of all ranks, in rank order, are exactly the work |
| Parallel.IndexInOneChunk | src/synctool/parallel.py:62-70 | every work item lies in the chunk of exactly one rank, and that rank has a worker |
| Parallel.ChildRunsItems | src/synctool/parallel.py:70-74 | a child runs exactly the items of its chunk, in order, once each |
| Parallel.TailRuns | src/synctool/parallel.py:70-74 | one item's events run that item once |
| Parallel.ChildEventsNoSleep | src/synctool/parallel.py:72-74 | without a positive `SLEEP_TIME` a child never sleeps |
| Parallel.DoChild | src/synctool/parallel.py:59-74 | `do_child` runs the clamped slice of its rank |
| Parallel.RunItems | src/synctool/parallel.py:70-74 | the child's loop runs each item followed by a pause when `SLEEP_TIME` is positive |
| Parallel.JoinStep | src/synctool/parallel.py:83-93 | one `wait` outcome only removes pids |
| Parallel.JoinSpec | src/synctool/parallel.py:83-93 | `join` only removes pids |
| Parallel.JoinEnds | src/synctool/parallel.py:83-90 | `join` ends once `wait` reports that no child is left, or once every spawned child was reaped |
| Parallel.FirstStop | src/synctool/parallel.py:41-50 | the first rank whose fork failed or returned in the child, every rank before it forked with this process as the parent |
| Parallel.Processes.constructor | src/synctool/parallel.py:22 | `ALL_PIDS` starts empty |
| Parallel.Processes.Join | src/synctool/parallel.py:77-93 | `join` leaves `ALL_PIDS` as the wait outcomes determine and returns exactly when it is empty |
| Parallel.Processes.Spawn | src/synctool/parallel.py:41-53 | ranks are forked in order until a fork fails or this process is the child, and the parent records each child's pid in `ALL_PIDS` |
| Parallel.Processes.Do | src/synctool/parallel.py:25-55 | `SLEEP_TIME` forces one worker; forks go up to the partition's worker count; a failed fork returns at once without `join`; the child of rank `r` runs exactly `do_child` for `r` and exits without forking or joining; the parent that forked every rank runs `join` on all spawned pids |
| ConfigLines.CutComment | src/synctool_config.py:197-199 | the text before the first `#`: a prefix of the line without `#` |
| ConfigLines.LinePieceCases | src/synctool_config.py:197-208 | a line is blank exactly when nothing but whitespace precedes its `#`; otherwise it continues exactly when that text ends with a backslash, and contributes it without the backslash |
| ConfigLines.ReadStep | src/synctool_config.py:190-215 | a nonempty line advances the line number; end of file and lines after it add no statement |
| ConfigLines.ReadStepPiece | src/synctool_config.py:195-215 | a blank line is skipped, a continued line extends the pending text, and a final line completes a statement numbered by that line |
| ConfigLines.ContinuedLines | src/synctool_config.py:201-208 | blank and continued lines complete no statement; their tokens accumulate in the pending text |
| ConfigLines.ContinuedStatement | src/synctool_config.py:205-215 | a statement spread over continued lines has the tokens of all its lines in order and is numbered by its last line |
| ConfigLines.ReadAfterEof | src/synctool_config.py:191-193 | nothing after end of file is read |
| ConfigLines.ParseBool | src/synctool_config.py:335-375 | the boolean values are exactly `1`, `on`, `yes` and `0`, `off`, `no` |
| ConfigLines.ParseNumProc | src/synctool_config.py:688-702 | `num_proc` accepts exactly an integer of at least 1 |
| ConfigLines.SplitInterface | src/synctool_config.py:441-443 | a last token `interface:X` yields `X` and the other groups; without one the groups are unchanged |
| ConfigRead.ScriptPath | src/synctool_config.py:506-556 | an absolute script path is used as given |
| ConfigRead.SettingDirective | src/synctool_config.py:235-702 | a setting statement counts at most one error, and an error changes no setting |
| ConfigRead.AddNamesAddsUnknown | src/synctool_config.py:484-487 | `ignore_group` makes every unknown name a group without members and leaves the known ones alone |
| ConfigRead.TableDirective | src/synctool_config.py:392-489 | a table statement counts at most one error and changes no setting |
| ConfigRead.KeywordCaseInsensitive | src/synctool_config.py:222 | keywords differing only in case have the same effect |
| ConfigRead.DirectiveSetting | src/synctool_config.py:222-702 | a setting keyword in any case is handled by the setting statement, which changes only the settings |
| ConfigRead.MasterDirSetting | src/synctool_config.py:235-248 | `masterdir` is accepted exactly when none is set yet and the path is a directory, and then `MASTER_LEN` is its length plus one; otherwise one error and no change |
| ConfigRead.DirListSetting | src/synctool_config.py:253-299 | `overlaydir`, `deletedir` and `tasksdir` append the directory exactly when it is not listed yet and is a directory; otherwise one error and no change |
| ConfigRead.ScriptDirSetting | src/synctool_config.py:304-316 | `scriptdir` is accepted exactly when none is set yet and the path is a directory |
| ConfigRead.SymlinkModeSetting | src/synctool_config.py:321-331 | `symlink_mode` is accepted exactly when the value reads as an octal number, and is set to it |
| ConfigRead.IgnoreSetting | src/synctool_config.py:380-387 | the `ignore` keywords extend `IGNORE_FILES` by all their arguments |
| ConfigRead.OnUpdateSetting | src/synctool_config.py:494-524 | `on_update` is accepted exactly when it has a command whose script is a file, and maps the file to the joined command |
| ConfigRead.AlwaysRunSetting | src/synctool_config.py:529-563 | `always_run` is accepted exactly when the joined command is new and its script is a file, and then appends it |
| ConfigRead.CommandLineSetting | src/synctool_config.py:568-673 | a `*_cmd` keyword is accepted exactly when its first word is a file, and stores its joined words |
| ConfigRead.LogfileSetting | src/synctool_config.py:676-683 | `logfile` stores its joined words |
| ConfigRead.CommandKeywordGroup | src/synctool_config.py:235-673 | no `*_cmd` keyword is tested earlier as a directory, value or script keyword |
| ConfigRead.BoolSetting | src/synctool_config.py:335-375 | a boolean setting becomes true for `1`/`on`/`yes` and false for `0`/`off`/`no`; any other value is one error and changes nothing |
| ConfigRead.NumProcSetting | src/synctool_config.py:688-702 | `num_proc` is set to the given integer exactly when it is at least 1; anything else is one error and changes nothing |
| ConfigRead.InterfaceToken | src/synctool_config.py:441-443 | a last group `interface:X` is split off as the interface `X` |
| ConfigRead.InterfaceOnNodeLine | src/synctool_config.py:422-459 | a new node line ending in `interface:X` sets the node's interface to `X`, and its groups become the expansion of the other groups |
| ConfigRead.InterfaceNodeTable | src/synctool_config.py:422-459 | the same, stated for the table statement with its keyword |
| ConfigRead.GroupLine | src/synctool_config.py:392-417 | `group g …` with too few arguments or a name already taken is one error and changes nothing; otherwise it succeeds exactly when no member is a node, and then `GROUP_DEFS[g]` is the expansion of the members, the unknown members are new groups, and the node tables are unchanged |
| ConfigRead.NodeLine | src/synctool_config.py:422-459 | `node n …` for a name already taken is one error and changes nothing; otherwise it succeeds exactly when no group is a node, and then `NODES[n]` is the expansion of its groups |
| ConfigRead.InterfaceRedefined | src/synctool_config.py:441-448 | a second interface for a node is one error and changes nothing |
| ConfigRead.IgnoreNodeLine | src/synctool_config.py:464-471 | `ignore_node n` appends `n` to `IGNORE_GROUPS` and changes nothing else |
| ConfigRead.DirectiveTable | src/synctool_config.py:392-489 | a table keyword in any case is handled as the table statement |
| ConfigRead.TableDirectiveAdds | src/synctool_config.py:392-489 | group and node lines only add names, and existing nodes keep their groups |
| ConfigRead.TableAdds | src/synctool_config.py:392-489 | the same, stated for the table statement with its keyword |
| ConfigRead.CollectDefsGrow | src/synctool_config.py:719-736 | expanding a group list never removes a group |
| ConfigRead.RunStmtsStep | src/synctool_config.py:190-705 | one more statement adds its errors to the running total |
| ConfigTables.Expand | src/synctool_config.py:711-747 | the expanded list holds no name twice |
| ConfigTables.CollectDefs | src/synctool_config.py:719-736 | the loop raises exactly when an element is a node and not a group; otherwise every unknown name becomes a group without members |
| ConfigTables.CollectGroups | src/synctool_config.py:719-736 | without an error the collected list is each element followed by its members |
| ConfigTables.ExpandOutcome | src/synctool_config.py:711-747 | `expand_grouplist` raises exactly for a node name; otherwise it returns each element and its members, once each, in order of first occurrence, and the unknown names have become groups |
| ConfigTables.InsertGroupFront | src/synctool_config.py:815-824 | after `insert_group` the node's list starts with the group, followed by the old list less that group's first occurrence; an absent node gets just the group; no other node changes |
| ConfigTables.InsertGroupList | src/synctool_config.py:818-822 | moving the group to the front is the old list with its first occurrence cut out |
| ConfigTables.InsertGroupDistinct | src/synctool_config.py:815-824 | `insert_group` adds no duplicate to a list that had none |
| ConfigTables.InsertKeeps | src/synctool_config.py:815-824 | `insert_group` keeps every group the node had |
| ConfigTables.RemoveAllKeepsDistinct | src/synctool_config.py:806-809 | removing ignored groups adds no duplicate |
| ConfigTables.RemoveAllKeeps | src/synctool_config.py:806-809 | every group that is not ignored survives |
| ConfigTables.RemoveAllSubsequence | src/synctool_config.py:806-809 | the surviving groups keep their order |
| ConfigTables.RemoveAllDrops | src/synctool_config.py:806-809 | no ignored group survives in a list without duplicates |
| ConfigTables.RemoveAllDropsLast | src/synctool_config.py:806-809 | the last ignored group does not survive either |
| ConfigTables.RemoveIgnored | src/synctool_config.py:802-812 | `remove_ignored_groups` keeps the set of nodes, and each node's list becomes its list with the first occurrence of each ignored group removed in turn |
| ConfigTables.NodeInterface | src/synctool_config.py:831-835 | a node's interface is its `interface:` name, or else the node name |
| ConfigTables.GroupsOf | src/synctool_config.py:887-893 | `get_groups` is the node's group list, or empty for an unknown node |
| ConfigTables.AllGroups | src/synctool_config.py:861-872 | `make_all_groups` lists exactly the group and node names, each dictionary's keys once |
| ConfigTables.AllGroupsDistinct | src/synctool_config.py:861-872 | that list holds no name twice exactly when no name is both a group and a node |
| ConfigTables.ImplicitGroupsShape | src/synctool_config.py:145-155 | a node's list starts with its own name, contains `all`, keeps the order of its other groups and gains nothing else |
| ConfigTables.Implicit | src/synctool_config.py:145-155 | adding the implicit groups keeps the set of nodes |
| ConfigTables.ImplicitNodes | src/synctool_config.py:145-155 | after `read_config` every node's list starts with its own name and contains `all` |
| ConfigTables.ShortName | src/synctool_config.py:761-762 | the short host name is the host name up to its first dot |
| ConfigTables.HostInNodes | src/synctool_config.py:779-790 | the node found is one of the nodes |
| ConfigTables.HostInNodesFirst | src/synctool_config.py:779-790 | the search finds the first node, in key order, whose interface or groups name the host, and none exactly when no node does |
| ConfigTables.MyNodename | src/synctool_config.py:766-790 | a conflict exactly when both the full and the short name are nodes; else the short name, else the full name, and any chosen name is a node |
| ConfigTables.MyNodenameByReference | src/synctool_config.py:778-790 | a host that is no node by either name is the first node naming it, or unknown exactly when none does |
| ConfigTables.MyGroupsFirstShape | src/synctool_config.py:794-798 | the chosen node's list starts with its name and holds both host names; no other node changes |
| Config.RemoveGroups | src/synctool_config.py:805-812 | the inner loop removes each ignored group's first occurrence, and a list without changes is left alone |
| Config.CollectRaisedStays | src/synctool_config.py:734 | once the loop has raised, the rest of the list is not looked at |
| Config.Config.constructor | src/synctool_config.py:55-86 | the tables start empty, with no action and no node name |
| Config.Config.ExpandGrouplist | src/synctool_config.py:711-747 | the in-place `expand_grouplist` leaves `GROUP_DEFS` and returns the list as `Expand` does, also when it raises |
| Config.Config.InsertGroup | src/synctool_config.py:815-824 | the in-place `insert_group` updates `NODES` as `InsertGroup` does |
| Config.Config.RemoveIgnoredGroups | src/synctool_config.py:802-812 | the in-place `remove_ignored_groups` updates `NODES` as `RemoveIgnored` does |
| Config.Config.GetNodesInGroups | src/synctool_config.py:927-939 | each node once, and exactly the nodes in one of the given groups |
| Config.Config.SetAction | src/synctool_config.py:987-995 | a second action exits and changes nothing; the first is recorded with its option |
| Config.Config.AddImplicitGroups | src/synctool_config.py:145-162 | every node gets its own name first and `all`; `all` and `none` become groups; `none` is ignored |
| Config.Config.InsertOwnNames | src/synctool_config.py:145-147 | each node's own name is moved to the front of its list |
| Config.Config.AppendAll | src/synctool_config.py:153-155 | `all` is appended to each list that lacks it |
| Config.Config.SearchNodes | src/synctool_config.py:779-790 | the loop finds the first node, in key order, that names the host |
| Config.Config.ChooseNode | src/synctool_config.py:770-790 | the node chosen for a host without a conflict |
| Config.Config.InsertMyGroups | src/synctool_config.py:794-798 | host name, short host name and node name go to the front of the node's list |
| Config.Config.AddMyHostname | src/synctool_config.py:750-798 | `add_myhostname`: a conflict exits without change; otherwise the node name is chosen and, when found, its list gets the host names in front |
| Config.Config.ReadConfigFile | src/synctool_config.py:165-215 | reading a file carries out its statements in order and returns their errors; a file that cannot be opened is one error |
| Config.Config.ReadLine | src/synctool_config.py:195-215 | one nonempty line advances the reading loop and runs a completed statement at once |
| Config.Config.ExecStmt | src/synctool_config.py:213-220 | a statement with fewer than two tokens is one syntax error |
| Config.Config.Apply | src/synctool_config.py:222-705 | each keyword's checks and effects; an unknown keyword is one error |
| Config.Config.ApplyTable | src/synctool_config.py:392-489 | the group, node and ignore statements update the tables in place |
| PkgCli.RearrangeOptions | src/synctool_master_pkg.py:62-101 | the arguments that stay in place, in order, then the package names that follow a list option, in order |
| PkgCli.PickPermutation | src/synctool_master_pkg.py:72-101 | the two parts together are a permutation of the arguments read so far |
| PkgCli.PickGrows | src/synctool_master_pkg.py:77-100 | each argument goes to exactly one of the two parts |
| PkgCli.RearrangedPermutation | src/synctool_master_pkg.py:72-101 | the rearranged arguments are a permutation of the input |
| PkgCli.MovedIsRun | src/synctool_master_pkg.py:77-100 | an argument moves exactly when it and every argument back to a list option start with no `-` |
| PkgCli.LastArg | src/synctool_master_pkg.py:287-293 | a setting is present exactly when its option was given |
| PkgCli.GetOptions | src/synctool_master_pkg.py:186-370 | the two loops over the options give the outcome of `get_options` with the package check in force |
| PkgCli.AsWrittenDiffers | src/synctool_master_pkg.py:356-363 | the code as written differs from the intended check only for an install or remove with no package names |
| PkgCli.InstallWithoutPackage | src/synctool_master_pkg.py:356-363 | `dsh-pkg -i` is accepted as written although it names no package |
| PkgCli.InstallSpellings | src/synctool_master_pkg.py:267-273 | an option installs or removes exactly when it is spelled `-i`, `--install`, `-R` or `--remove` |
| PkgCli.LongInstall | src/synctool_master_pkg.py:267-273 | of the long option words only `install` and `remove` install or remove |
| PkgCli.SingleInstall | src/synctool_master_pkg.py:267-285 | one install option is one action and needs a package name |
| PkgCli.ActionRule | src/synctool_master_pkg.py:267-370 | the options are accepted exactly when they hold one action; no action gives the usage text and more than one the list of actions |
| PkgCli.AcceptedNumbers | src/synctool_master_pkg.py:298-332 | accepted `-N` values are at least 1 and accepted `-z` values are not negative |
| PkgCli.AcceptedSettings | src/synctool_master_pkg.py:298-332 | an accepted `-N` is at least 1; an accepted `-z` is positive, or -1 for 0 |
| PkgCli.PassedIgnores | src/synctool_master_pkg.py:247-265 | an option the master keeps to itself does not change what the nodes are passed |
| PkgCli.PassedKeeps | src/synctool_master_pkg.py:347-351 | every other option reaches the nodes with its argument |
| PkgCli.ClassifyOptions | src/synctool_master_pkg.py:240-351 | the second loop reports the first refused argument, or gathers the settings and argument lists |
| PkgCli.ClassifyOne | src/synctool_master_pkg.py:241-351 | one option updates the gathered settings as its case of the loop says |
| PkgCli.AppendGiven | src/synctool_master_pkg.py:241-351 | a nonempty name and argument are appended |
| PkgCli.CountAction | src/synctool_master_pkg.py:267-285 | the actions are counted, and install and remove need a package name |
| PkgCli.PassOn | src/synctool_master_pkg.py:267-351 | an option for the nodes is passed on with its setting |
| PkgCli.GrowStep | src/synctool_master_pkg.py:240-351 | the case-by-case loop body equals the field-by-field description of one step |
| PkgCli.GatheredSnoc | src/synctool_master_pkg.py:240-351 | one more option extends what was gathered by one step |
| PkgCli.FailureStays | src/synctool_master_pkg.py:287-332 | a refused argument exits, whatever follows it |

## Left out

- The output: every `stderr`, `verbose`, `unix_out` and `print`, and the listing that `find_terse` prints for several matches.
- `os.listdir` and `os.stat` are replaced by a tree of `Entry` values. Symbolic links, errors of `stat`, and changes to the tree during the walk are not modelled.
- A top-level entry of the overlay named after one of the node's groups that is a plain file makes `os.listdir` raise in `_walk_subtree` (`src/synctool/overlay.py:259`). The model walks the entry's `children` instead, which are empty for an entry that mirrors a plain file; `Entry` does not require a plain file to have no children, so for a tree that gives one children the model walks them.
- `_select_tree` and the caching of the selected tree are left out. `find_terse` takes the tree's entries as a list.
- `find_terse` rewrites a leading `//` to `VAR_DIR` before the plain `find`. This is left out: a path without `...` yields `NotTerse`.
- `fnmatch.fnmatch` is a function parameter with no meaning of its own.
- Python's `dict.keys()` order is not fixed by the language. It is an input that lists every key once (`KeyOrder`). `remove_ignored_groups`, `read_config`'s implicit groups and `get_nodes_in_groups` are stated for every order.
- `os.fork`, `os.wait`, `time.sleep` and `sys.exit` are inputs or events. `do` is modelled in one process at a time: the fork outcomes it sees are an input, and a child's exit ends its `do`. Signals are not modelled. `catch_signals` is not part of this model.
- Parallel.Processes.Join: a finite sequence of `wait` outcomes is given, so `join` may still be waiting when it runs out (`finished` is false).
- Config.Config.ReadConfigFile: nesting of `include` is bounded by a `fuel` parameter. The source recurses without a bound.
- `read_config`'s default directories and checks (`src/synctool_config.py:102-143`) are left out. So are `check_cmd_config` and the other helpers that only look at the file system.
- The `len(arr) < 2` checks after `len(arr) <= 1` has been refused can never fire: the model omits them.
- `socket.gethostname` is a parameter of `add_myhostname`.
- `get_options`: `getopt` itself is left out. Its result (the options and the positional arguments) is an input. The `read_config` and `check_cmd_config` calls between the two loops are left out too.
- `zypper.py`, and the `worker_pkg`, `run_remote_pkg` and `main` functions of `synctool_master_pkg.py`, are not part of this model.
- Python 2 `cmp` comparators are modelled by the keys they induce.
- Overlay.Candidates: its contract states only that the elements come from the listing. The filtering is stated by OverlayWalker.ListEntry against the entry function.
- Text.ParseIntShape: it states the shape of an accepted numeral but not its exact value with a sign. Text.ParseIntDecimal gives the value of plain digits, and Text.ParseIntSigned the value of a signed numeral, whitespace after the sign included.
- Classify.SplitExtension: its contract states the shape of every classification. The exact result of each branch is stated by the lemmas beside it: Classify.UntaggedEntry, Classify.GenericPost, Classify.OtherExt, Classify.EmptyTag, Classify.TaggedEntry, Classify.TaggedPost, Classify.ForeignTag and Classify.DroppedExactly.
- Seqs.RemoveFirst: its contract states the multiset change and the absent case. That exactly the first occurrence is cut out is stated by Seqs.RemoveFirstCut, and that the rest keeps its order by Seqs.RemoveFirstSubsequence.
- ConfigRead.TableDirective: its contract states only the error count and that no setting changes. The effect of each statement is stated by ConfigRead.GroupLine, ConfigRead.NodeLine, ConfigRead.InterfaceNodeTable, ConfigRead.InterfaceRedefined, ConfigRead.IgnoreNodeLine and ConfigRead.AddNamesAddsUnknown.
- ConfigRead.SettingDirective: it states only the error count and that an error changes nothing. The effect of each keyword is stated by ConfigRead.MasterDirSetting, ConfigRead.DirListSetting, ConfigRead.ScriptDirSetting, ConfigRead.SymlinkModeSetting, ConfigRead.BoolSetting, ConfigRead.IgnoreSetting, ConfigRead.OnUpdateSetting, ConfigRead.AlwaysRunSetting, ConfigRead.CommandLineSetting, ConfigRead.LogfileSetting and ConfigRead.NumProcSetting.
- ConfigRead.ScriptPath: its contract states only that an absolute script path is used as given; that a relative name is looked up under `scripts` of the master directory, or of the current directory, is not stated by a contract.

## Findings

| source | as written | input that shows it | evidently intended | confidence | as-written member | corrected member |
|---|---|---|---|---|---|---|
| src/synctool/overlay.py:112-133 | the quick test reads `ending[-1]` even when the ending after `...` is empty | terse path `/...` with an entry whose destination is `/motd` | an empty ending matches every longer destination, or is refused, without an IndexError | not executed | OverlayTerse.TerseEmptyEndingCrashes | OverlayTerse.FindTerse |
| src/synctool_master_pkg.py:356-363 | the package check sits behind `args != None`, which the list `getopt` returns always passes | `dsh-pkg -i` with no package name | `--install` and `--remove` without a package name are refused | not executed | PkgCli.InstallWithoutPackage | PkgCli.AsWrittenDiffers |
