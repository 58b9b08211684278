# spit: token-to-patch-file resolution and moves, in Dafny

`spit.go` is a small command-line tool. It moves patch files between two fixed
directories: `patching-tool/patches` (the source) and `patching-tool/spit` (the
destination). The caller types short tokens such as `1234`, `de-6` or
`portal-45`. Each token is turned into a *fragment*. The fragment is globbed
for in the source directory, and the entry found is renamed into the
destination. `-r` swaps the two directories. `-a` feeds every source entry name
through the same path. `-l` and `-lr` only list a directory.

The model has five modules.

- `Text` (`text.dfy`) holds the character classes of Go's RE2 (`\w` is
  `[0-9A-Za-z_]`) and `strings.Contains`. It also has `LastSegment`, the last
  element of `strings.Split(path, "/")`, which `getFileName` uses as the
  basename.
- `Glob` (`glob.dfy`) is `filepath.Match` for patterns built from literal
  characters and `*`. It proves that for a literal fragment, the glob `*frag*`
  selects exactly the names that contain `frag`.
- `Tokens` (`tokens.dfy`) defines the regular expression `\w+-[0-9]+`
  independently, as a language (`MatchAt`) plus Go's choice of match
  (`LeftmostLongest`). It also has the scanner that finds that match, the
  anchored `^[0-9]+$`, and `Fragment`. The lemmas connect the two.
- `Spit` (`spit.dfy`) models the driver as a class, `Session`. The class holds
  the filesystem and the two mutable package-level paths. The filesystem is
  abstract: a map from directory path to the set of entry names in it. The
  class methods are `GetFileName`, `MoveFile`, `Rename`, `CreateTmp`,
  `ReadDir`, `ListDir`, the token loop `MoveEach`, and `Execute`, which is
  `main`. `RunsTokens` is the specification the loops are proved against: the
  sequence of results that `moveFile` may produce over a list of tokens, and
  the filesystem afterwards.
- `SpitFacts` (`spit_facts.dfy`) proves properties of such runs. No name is
  lost or created. Exactly the moved names leave the source. A run halts only
  on a failed rename. `-r` with the same token can undo a move. The file also
  has concrete `-a` scenarios.

When several entries match, `filepath.Glob`'s order decides which one is
taken. That order is left open: the model lets any matching entry be chosen.

### Where the code does less than its own text suggests (the model follows the code)

- **Tokens that match neither pattern.** `getFileName` has an error branch
  for them, "Couldn't match '%s' to any known patterns" (spit.go:124-126),
  which suggests that a token such as `!!!` is meant to be rejected. But
  spit.go:121 always prepends `"hotfix-"`, so the fragment is never empty and
  that branch cannot be reached. `!!!` globs for `*hotfix-*` and may move any
  hotfix. See `Tokens.Fragment`, `Tokens.FragmentOfOtherToken`,
  `Tokens.NoPatternExample` and `Spit.Session.GetFileName`.
- **`-a`.** The flag's help text is "Specify whether to move all files."
  (spit.go:20). The code (spit.go:69-71) passes each entry name to `moveFile`,
  which resolves it as a token again. An entry may then take a different file,
  or be skipped. So `-a` does not always move every entry. With `README` and
  `hotfix-1.patch` in the source, `README` stays behind whatever the listing
  order. See `SpitFacts.AllModeLeavesEntryBehind` and
  `SpitFacts.AllModeSkipsPlainEntry`.
- **An empty token list.** "Nothing to do, exiting." (spit.go:77-79) reads as
  if nothing was done. But the code calls `createTmp` first (spit.go:61), so
  the destination directory may already have been created. See
  `Spit.Session.Execute`.

## Model

| member | source | states |
|---|---|---|
| `Text.LastSegment` | spit.go:138-140 | the result has no `/`, is a suffix of the path, and is preceded by `/` unless it is the whole path (the last element of `strings.Split(path, "/")`) |
| `Text.LastSegmentOfJoin` | spit.go:128-140 | taking the last `/`-separated part of `dir + "/" + name` returns `name` when `name` has no `/`, so the glob's full path is cut back to the entry name |
| `Glob.StarLiteralStar` | spit.go:128-130 | for a fragment without glob metacharacters and a name without `/`, `*frag*` matches the name if and only if the name contains `frag` |
| `Glob.LiteralThenStar` | spit.go:128-130 | `lit*` matches exactly the names that start with `lit` |
| `Glob.StarThen` | spit.go:128-130 | a leading `*` matches if and only if the rest of the pattern matches some suffix of the name |
| `Glob.StarMatchesAll` | spit.go:128-130 | a lone `*` matches every name without a separator |
| `Tokens.WordRunEnd` | spit.go:104 | the greedy `\w+` from a position: every character up to the result is a word character, and the next one is not |
| `Tokens.DigitRunEnd` | spit.go:104 | the greedy `[0-9]+` from a position: every character up to the result is a digit, and the next one is not |
| `Tokens.MatchesFrom` | spit.go:104-111 | a match of `\w+-[0-9]+` starts at `i` if and only if the word run from `i` is followed by `-` and a digit; then the greedy end is a match, and no match from `i` is longer |
| `Tokens.FindFromIsLeftmostLongest` | spit.go:104-111 | the scan reports no match only when none exists, and otherwise the leftmost match, at its longest |
| `Tokens.FindWordDashDigits` | spit.go:111 | `r.FindString(file)`: any non-empty result is a substring of the token |
| `Tokens.FindWordDashDigitsIsLeftmostLongest` | spit.go:111-113 | `FindString` gives `""` exactly when the token has no match, and otherwise the leftmost, longest match, made only of word characters and `-` |
| `Tokens.LeftmostLongestExists` | spit.go:111 | every token that has a match has a leftmost, longest one |
| `Tokens.Fragment` | spit.go:111-126 | the fragment is never empty, so the "no known pattern" error at line 125 is unreachable |
| `Tokens.FragmentIsLiteral` | spit.go:121-128 | the fragment holds only word characters and `-`, so it has no glob metacharacter |
| `Tokens.FragmentOfPatternToken` | spit.go:104-111 | a token with a `\w+-[0-9]+` match becomes its leftmost, longest match, e.g. the first maximal word run followed by `-` and a digit, the `-`, and the maximal digit run |
| `Tokens.FindAllDigits` | spit.go:113-121 | the anchored `^[0-9]+$` match: either the whole token or `""` |
| `Tokens.FragmentOfNumericToken` | spit.go:113-121 | a non-empty all-digit token has no such match, and its fragment is `"hotfix-" + token` |
| `Tokens.FragmentOfOtherToken` | spit.go:113-126 | a token matching neither expression gets the fragment `"hotfix-"` |
| `Tokens.FirstStartIsLeftmost` | spit.go:104-111 | if position `i` is the first that passes the local test, the match starting there is the leftmost, longest match, and it is the fragment |
| `Tokens.NumericExample` | spit.go:34 | `1234` becomes `hotfix-1234`, as the usage text says |
| `Tokens.TicketExamples` | spit.go:35-36 | `de-6` and `portal-45` are their own fragments, as the usage text says |
| `Tokens.LeftmostExample` | spit.go:104-111 | `a-b-12` becomes `b-12`: the leftmost match, not the text after the first hyphen |
| `Tokens.DigitRunExample` | spit.go:104-111 | `de-6a` becomes `de-6`: the digit run stops at the first non-digit |
| `Tokens.NoPatternExample` | spit.go:113-126 | `!!!` becomes `hotfix-` instead of being rejected |
| `Spit.GlobIn` | spit.go:128-130 | `filepath.Glob(sourcePath + "/" + pattern)`: the paths `dir/name` of the entries the pattern matches; every result starts with `dir + "/"`, and there are none when `dir` does not exist |
| `Spit.Legal` | spit.go:86-101 | defines the results `moveFile` may have on a filesystem: a skip exactly when no entry contains the fragment, otherwise a move or a failed rename of some entry that does; every moved or failed name is an entry of the source, and a skip is never "no known pattern" |
| `Spit.RunsTokens` | spit.go:64-83 | defines what the loops `for ... { moveFile(...) }` may produce: one `Legal` result per token in order, each applied to the filesystem before the next, ending at the first failed rename; there are never more results than tokens |
| `Spit.WithDir` | spit.go:167-175 | after `createTmp` the directory exists; an existing one and every other directory are left as they were |
| `Spit.RunsTokensStep` | spit.go:81-83 | a turn of the token loop that renamed or skipped extends the run so far by its result, which is not a failure |
| `Spit.RunsTokensHalt` | spit.go:81-83 | a turn of the token loop whose rename failed ends the run: the result list is complete for the whole token list, with the remaining tokens unprocessed |
| `Spit.Session.constructor` | spit.go:14-17 | the run starts with `sourcePath` = `patching-tool/patches` and `destinationPath` = `patching-tool/spit` |
| `Spit.Session.Swap` | spit.go:51-53 | the two paths are exchanged and the filesystem is unchanged |
| `Spit.Session.CreateTmp` | spit.go:167-175 | the destination directory is created only if it is absent (idempotent); the paths do not change |
| `Spit.Session.ReadDir` | spit.go:64-67 | fails exactly when the directory is missing; otherwise lists each of its entries exactly once |
| `Spit.Session.ListDir` | spit.go:143-158 | lists exactly the entries of the directory (an empty set is the "No files found" case), or aborts when it is missing; nothing changes |
| `Spit.Session.GetFileName` | spit.go:103-141 | an `Ok` name is an entry of the current source directory that contains the token's fragment and has no `/`; an error occurs exactly when no entry contains the fragment, and it is never "no known pattern" |
| `Spit.Session.Rename` | spit.go:94-98 | succeeds exactly when the name is in the source, the destination exists and the system allows the move; success moves that one name and nothing else, failure changes nothing |
| `Spit.Session.MoveFile` | spit.go:86-101 | the result is one `moveFile` may have on the old state (a skip only when nothing matches), and the new filesystem is the old one with exactly that move applied |
| `Spit.Session.MoveEach` | spit.go:81-83 | the results and the final filesystem form a run of `moveFile` over the tokens in order, skipping misses and halting at the first failed rename |
| `Spit.Session.Execute` | spit.go:42-83 | `-lr` first lists the original destination, with no change. Otherwise `-r` swaps the paths once, and `-l` lists the (possibly swapped) source, with no change. Every other mode first creates the destination. `-a` then runs `moveFile` over an enumeration of the source, or aborts if the source is unreadable. Without `-a`, it runs over `os.Args[1:]` (`os.Args[2:]` with `-r`), and aborts with "Nothing to do" when that is empty. A failed rename aborts. |
| `SpitFacts.RunsTokensTransfers` | spit.go:94-98 | the moved names all come from the source; the source loses exactly them and the destination gains exactly them |
| `SpitFacts.RunsTokensMovesDistinct` | spit.go:94-98 | no entry is moved twice: the number of `Moved` results equals the number of names moved |
| `SpitFacts.MovedStep` | spit.go:96 | one successful rename takes the name out of the source and puts it in the destination, and creates no directory |
| `SpitFacts.RunsTokensTouchesTwoDirs` | spit.go:94-98 | a run creates or removes no directory and changes none but the source and the destination |
| `SpitFacts.RunsTokensKeepsFiles` | spit.go:94-98 | the union of the two directories is the same after a run, and the source shrinks by exactly the number of moves |
| `SpitFacts.RunsTokensStopsOnlyOnFailure` | spit.go:87-98 | a run has one result per token unless its last result is a failed rename; only the last result can be one; it finishes normally exactly when it handled every token with no failure |
| `SpitFacts.MoveBackRestores` | spit.go:51-53 | after a move, running with `-r` and the same token may move the file back, which restores both directories; if that file is the only match, that is the only possible result |
| `SpitFacts.HotfixTokenMoves` | spit.go:113-140 | with only `hotfix-1234-fix.patch` in the source, token `1234` moves that file and nothing else |
| `SpitFacts.EntryMayResolveToAnother` | spit.go:128-140 | for the token `b-1`, with entries `b-1` and `ab-1` in the source, the entry `ab-1` may be picked and moved |
| `SpitFacts.MovedEntryNoLongerResolves` | spit.go:86-92 | once `ab-1` has moved, the token `ab-1` matches nothing and is skipped |
| `SpitFacts.ReadmeFragment` | spit.go:111-121 | the name `README`, read as a token, has the fragment `hotfix-` |
| `SpitFacts.HotfixEntryFragment` | spit.go:111 | the name `hotfix-1.patch`, read as a token, has the fragment `hotfix-1` |
| `SpitFacts.PlainAndHotfixRun` | spit.go:69-71 | `-a` over `README` and `hotfix-1.patch`, in either order: `README` always stays in the source, and when the hotfix can be renamed the run ends with exactly the hotfix moved |
| `SpitFacts.AllModeLeavesEntryBehind` | spit.go:63-72 | for every listing of a source holding `README` and `hotfix-1.patch`, `-a` ends with `README` still in the source, so `-a` does not move every entry; when the hotfix can be renamed it is the only name moved |
| `SpitFacts.AllModeSkipsPlainEntry` | spit.go:69-71 | under `-a`, an entry named `README` resolves to `hotfix-`, matches nothing, and is skipped rather than moved |
| `SpitFacts.DirsDistinct` | spit.go:15-16 | the two fixed directories are different paths |

## Left out

- Real I/O. `os.Rename`, `ioutil.ReadDir`, `os.Mkdir` and `os.Stat` act on the
  abstract map from directory path to entry names. File contents are not
  modelled. Neither is the difference between files and directories.
- Causes of a failed rename. Permissions, devices and the like are stood in
  for by the set `Session.immovable` (names the system refuses to move),
  plus the case of a missing destination directory. A rename onto an existing
  name in the destination replaces it; only the names are modelled.
- Spit.Session.CreateTmp: a failing `os.Mkdir` (spit.go:172-174) is not
  modelled, because the abstract filesystem has no reason for it to fail. The
  directory is always created.
- Result order of `filepath.Glob` and `ioutil.ReadDir`. Both return names in
  sorted order; neither library is part of this model. Any matching entry may
  be picked, and `-a` may take the entries in any order. Each entry is still
  taken exactly once. The `-a` scenario lemmas hold for every order.
- Globbing a path with directories in it. The glob is modelled directly as
  "entries of the source directory that the file pattern matches". Go's
  `filepath.Glob` would first split the path into directory and pattern.
- `flag` parsing and the usage text (spit.go:20-42). The four flags are a
  `Flags` value. `os.Args` is passed in verbatim, so any flag text at the
  sliced positions becomes a token, as in the code.
- The `regexp.Compile` failure branches (spit.go:106-109, 116-119) and the
  malformed-glob branch (spit.go:131-133). The two expressions are fixed
  literals. The glob pattern holds no metacharacter besides its two `*`
  (`Tokens.FragmentIsLiteral`).
- Output text. `fmt` and `log` messages become `Outcome`, `Abort` and
  `MoveResult` values; exit codes become `Finished` versus `Aborted`.
- Byte-level and Unicode details of Go strings. Tokens and names are
  sequences of ASCII characters.
