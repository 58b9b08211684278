/**
 * Properties of runs of spit.go's token loop, stated over the specification
 * `RunsTokens` that `Session.MoveEach` and `Session.Execute` are proved against.
 */
module SpitFacts {
  import opened Text
  import opened Tokens
  import opened Spit

  /** The names of the results that moved a file. */
  function MovedNames(results: seq<MoveResult>): set<string>
    decreases |results|
  {
    if results == [] then {}
    else (if results[0].Moved? then {results[0].name} else {}) + MovedNames(results[1..])
  }

  /** How many results moved a file. */
  function MovedCount(results: seq<MoveResult>): nat
    decreases |results|
  {
    if results == [] then 0
    else (if results[0].Moved? then 1 else 0) + MovedCount(results[1..])
  }

  /**
   * A run moves a set of distinct source entries to the destination and
   * nothing else: the source loses exactly them, the destination gains
   * exactly them, and every other directory is untouched.
   */
  lemma {:induction false} RunsTokensTransfers(fs: FileSystem, src: string, dst: string, immovable: set<string>,
                                               tokens: seq<string>, results: seq<MoveResult>, fs': FileSystem)
    requires src != dst
    requires RunsTokens(fs, src, dst, immovable, tokens, results, fs')
    ensures MovedNames(results) <= Entries(fs, src)
    ensures Entries(fs', src) == Entries(fs, src) - MovedNames(results)
    ensures Entries(fs', dst) == Entries(fs, dst) + MovedNames(results)
    decreases tokens
  {
    if tokens != [] {
      var r := results[0];
      if !r.MoveFailed? {
        var fs1 := Apply(fs, src, dst, r);
        var rest := results[1..];
        RunsTokensTransfers(fs1, src, dst, immovable, tokens[1..], rest, fs');
        if r.Moved? {
          MovedStep(fs, src, dst, immovable, tokens[0], r.name);
          assert MovedNames(results) == {r.name} + MovedNames(rest);
          assert r.name !in MovedNames(rest);
        } else {
          assert fs1 == fs;
          assert MovedNames(results) == MovedNames(rest);
        }
      }
    }
  }

  /** No file is moved twice: every `Moved` result names a different entry. */
  lemma {:induction false} RunsTokensMovesDistinct(fs: FileSystem, src: string, dst: string, immovable: set<string>,
                                                   tokens: seq<string>, results: seq<MoveResult>, fs': FileSystem)
    requires src != dst
    requires RunsTokens(fs, src, dst, immovable, tokens, results, fs')
    ensures MovedCount(results) == |MovedNames(results)|
    decreases tokens
  {
    if tokens != [] && !results[0].MoveFailed? {
      var r, rest := results[0], results[1..];
      var fs1 := Apply(fs, src, dst, r);
      RunsTokensMovesDistinct(fs1, src, dst, immovable, tokens[1..], rest, fs');
      if r.Moved? {
        RunsTokensTransfers(fs1, src, dst, immovable, tokens[1..], rest, fs');
        MovedStep(fs, src, dst, immovable, tokens[0], r.name);
        assert r.name !in MovedNames(rest);
        assert MovedNames(results) == {r.name} + MovedNames(rest);
      } else {
        assert MovedNames(results) == MovedNames(rest);
      }
    }
  }

  /** One move takes its name out of the source and into the destination. */
  lemma MovedStep(fs: FileSystem, src: string, dst: string, immovable: set<string>, token: string, name: string)
    requires src != dst
    requires Legal(fs, src, dst, immovable, token, Moved(name))
    ensures name in Entries(fs, src) && src in fs && dst in fs
    ensures Entries(Apply(fs, src, dst, Moved(name)), src) == Entries(fs, src) - {name}
    ensures Entries(Apply(fs, src, dst, Moved(name)), dst) == Entries(fs, dst) + {name}
    ensures Apply(fs, src, dst, Moved(name)).Keys == fs.Keys
  {
  }

  /** A run touches no directory but the source and the destination, and creates or removes none. */
  lemma {:induction false} RunsTokensTouchesTwoDirs(fs: FileSystem, src: string, dst: string, immovable: set<string>,
                                                    tokens: seq<string>, results: seq<MoveResult>, fs': FileSystem)
    requires src != dst
    requires RunsTokens(fs, src, dst, immovable, tokens, results, fs')
    ensures fs'.Keys == fs.Keys
    ensures forall d :: d in fs && d != src && d != dst ==> fs'[d] == fs[d]
    decreases tokens
  {
    if tokens != [] && !results[0].MoveFailed? {
      if results[0].Moved? {
        MovedStep(fs, src, dst, immovable, tokens[0], results[0].name);
      }
      RunsTokensTouchesTwoDirs(Apply(fs, src, dst, results[0]), src, dst, immovable, tokens[1..], results[1..], fs');
    }
  }

  /** The two fixed directories are different paths. */
  lemma DirsDistinct()
    ensures PatchesDir != SpitDir
  {
    assert |PatchesDir| != |SpitDir|;
  }

  /** No file is lost or created: the union of the two directories is the same after a run. */
  lemma RunsTokensKeepsFiles(fs: FileSystem, src: string, dst: string, immovable: set<string>,
                             tokens: seq<string>, results: seq<MoveResult>, fs': FileSystem)
    requires src != dst
    requires RunsTokens(fs, src, dst, immovable, tokens, results, fs')
    ensures Entries(fs', src) + Entries(fs', dst) == Entries(fs, src) + Entries(fs, dst)
    ensures |Entries(fs', src)| + MovedCount(results) == |Entries(fs, src)|
  {
    RunsTokensTransfers(fs, src, dst, immovable, tokens, results, fs');
    RunsTokensMovesDistinct(fs, src, dst, immovable, tokens, results, fs');
  }

  /**
   * A run handles the tokens in order and stops only at a failed rename: it
   * has one result per token unless its last result is that failure.
   */
  lemma {:induction false} RunsTokensStopsOnlyOnFailure(fs: FileSystem, src: string, dst: string, immovable: set<string>,
                                                        tokens: seq<string>, results: seq<MoveResult>, fs': FileSystem)
    requires RunsTokens(fs, src, dst, immovable, tokens, results, fs')
    ensures |results| <= |tokens|
    ensures forall k :: 0 <= k < |results| - 1 ==> !results[k].MoveFailed?
    ensures |results| < |tokens| ==> results != [] && results[|results| - 1].MoveFailed?
    ensures Conclude(results).Finished? <==> |results| == |tokens| && NoFailure(results)
    decreases tokens
  {
    if tokens != [] && !results[0].MoveFailed? {
      RunsTokensStopsOnlyOnFailure(Apply(fs, src, dst, results[0]), src, dst, immovable, tokens[1..], results[1..], fs');
      assert forall k :: 1 <= k < |results| ==> results[k] == results[1..][k - 1];
    }
  }

  /**
   * Running the tool again with `-r` and the same token can move the file
   * back, restoring both directories; when that file is the only match it
   * is the only thing the second run can do.
   */
  lemma MoveBackRestores(fs: FileSystem, src: string, dst: string, immovable: set<string>, token: string, name: string)
    requires src != dst
    requires Legal(fs, src, dst, immovable, token, Moved(name))
    requires name !in Entries(fs, dst)
    ensures var fs1 := Apply(fs, src, dst, Moved(name));
      && Legal(fs1, dst, src, immovable, token, Moved(name))
      && Apply(fs1, dst, src, Moved(name)) == fs
      && (Candidates(Entries(fs1, dst), Fragment(token)) == {name} ==>
            forall r :: Legal(fs1, dst, src, immovable, token, r) ==> r == Moved(name))
  {
    var fs1 := Apply(fs, src, dst, Moved(name));
    assert name in Entries(fs, src) && src in fs && dst in fs;
    assert name in Entries(fs1, dst);
    var back := Apply(fs1, dst, src, Moved(name));
    assert back[src] == fs[src];
    assert back[dst] == fs[dst];
    assert back == fs;
  }

  /** Token "1234" against a source holding one hotfix: that file, and only it, moves. */
  lemma HotfixTokenMoves()
    ensures var fs := map[PatchesDir := {"hotfix-1234-fix.patch"}, SpitDir := {}];
      && (forall r :: Legal(fs, PatchesDir, SpitDir, {}, "1234", r) <==> r == Moved("hotfix-1234-fix.patch"))
      && Apply(fs, PatchesDir, SpitDir, Moved("hotfix-1234-fix.patch"))
           == map[PatchesDir := {}, SpitDir := {"hotfix-1234-fix.patch"}]
  {
    var fs := map[PatchesDir := {"hotfix-1234-fix.patch"}, SpitDir := {}];
    DirsDistinct();
    NumericExample();
    assert HasPrefix("hotfix-1234-fix.patch"[0..], "hotfix-1234");
    assert Candidates(Entries(fs, PatchesDir), Fragment("1234")) == {"hotfix-1234-fix.patch"};
    var fs1 := Apply(fs, PatchesDir, SpitDir, Moved("hotfix-1234-fix.patch"));
    assert fs1[PatchesDir] == {} && fs1[SpitDir] == {"hotfix-1234-fix.patch"};
  }

  /** The fragment of "b-1" is also in "ab-1", so resolving "b-1" may pick "ab-1". */
  lemma EntryMayResolveToAnother()
    ensures Legal(map[PatchesDir := {"b-1", "ab-1"}, SpitDir := {}], PatchesDir, SpitDir, {}, "b-1", Moved("ab-1"))
  {
    FirstStartIsLeftmost("b-1", 0);
    assert HasPrefix("ab-1"[1..], "b-1");
  }

  /** Once "ab-1" has gone, the token "ab-1" matches nothing. */
  lemma MovedEntryNoLongerResolves()
    ensures Legal(map[PatchesDir := {"b-1"}, SpitDir := {"ab-1"}], PatchesDir, SpitDir, {}, "ab-1", Skipped(NoMatchingFile))
  {
    FirstStartIsLeftmost("ab-1", 0);
    assert !Contains("b-1", "ab-1");
  }

  /** "README" holds neither a ticket pattern nor digits, so its fragment is "hotfix-". */
  lemma ReadmeFragment()
    ensures Fragment("README") == "hotfix-"
  {
    hide Fragment;
    var s := "README";
    forall a, b ensures !MatchAt(s, a, b) {
      if 0 <= a <= |s| { MatchesFrom(s, a); }
    }
    assert !IsNumeric(s) by { assert !IsDigit(s[0]); }
    FragmentOfOtherToken(s);
  }

  /** The entry "hotfix-1.patch", read as a token, has the fragment "hotfix-1". */
  lemma HotfixEntryFragment()
    ensures Fragment("hotfix-1.patch") == "hotfix-1"
  {
    hide Fragment, WordRunEnd, DigitRunEnd;
    var s := "hotfix-1.patch";
    assert GreedyEnd(s, 0) == 8 by {
      assert s[6] == '-' && s[7] == '1' && s[8] == '.';
      assert WordSpan(s, 0, 6);
      assert WordRunEnd(s, 0) == 6;
      assert DigitRunEnd(s, 7) == 8;
    }
    FirstStartIsLeftmost(s, 0);
  }

  /** The `-a` scenario below: a plain entry and a hotfix in the source. */
  function PlainAndHotfix(): FileSystem {
    map[PatchesDir := {"README", "hotfix-1.patch"}, SpitDir := {}]
  }

  /** The same filesystem with the hotfix moved to the destination. */
  function HotfixMoved(): FileSystem {
    map[PatchesDir := {"README"}, SpitDir := {"hotfix-1.patch"}]
  }

  /**
   * One listing order of the `-a` scenario: whichever of "README" and
   * "hotfix-1.patch" comes first takes the hotfix, the other is skipped.
   */
  lemma PlainAndHotfixRun(immovable: set<string>, first: string, second: string,
                          results: seq<MoveResult>, fs': FileSystem)
    requires (first, second) == ("README", "hotfix-1.patch") || (first, second) == ("hotfix-1.patch", "README")
    requires RunsTokens(PlainAndHotfix(), PatchesDir, SpitDir, immovable, [first, second], results, fs')
    ensures "README" in Entries(fs', PatchesDir)
    ensures "hotfix-1.patch" !in immovable ==> fs' == HotfixMoved()
  {
    hide Fragment;
    var fs, tokens := PlainAndHotfix(), [first, second];
    DirsDistinct();
    ReadmeFragment();
    HotfixEntryFragment();
    assert HasPrefix("hotfix-1.patch"[0..], "hotfix-1");
    assert HasPrefix("hotfix-1.patch"[0..], "hotfix-");
    assert Candidates(Entries(fs, PatchesDir), Fragment(first)) == {"hotfix-1.patch"};
    var r := results[0];
    assert Legal(fs, PatchesDir, SpitDir, immovable, first, r);
    if !r.MoveFailed? {
      assert r == Moved("hotfix-1.patch");
      var fs1 := Apply(fs, PatchesDir, SpitDir, r);
      assert fs1 == HotfixMoved() by {
        assert fs1[PatchesDir] == {"README"} && fs1[SpitDir] == {"hotfix-1.patch"};
      }
      assert tokens[1..] == [second];
      assert RunsTokens(fs1, PatchesDir, SpitDir, immovable, [second], results[1..], fs');
      assert Candidates(Entries(fs1, PatchesDir), Fragment(second)) == {};
      assert results[1] == Skipped(NoMatchingFile);
      assert RunsTokens(fs1, PatchesDir, SpitDir, immovable, [], results[2..], fs');
    }
  }

  /**
   * Under `-a` an entry name is resolved like a typed token. With "README"
   * and "hotfix-1.patch" in the source, in whatever order the directory is
   * listed, "README" stays behind: its fragment "hotfix-" finds the hotfix,
   * or nothing once the hotfix has moved. So `-a` does not move every entry.
   */
  lemma AllModeLeavesEntryBehind(immovable: set<string>, tokens: seq<string>,
                                 results: seq<MoveResult>, fs': FileSystem)
    requires Enumerates(tokens, PlainAndHotfix()[PatchesDir])
    requires RunsTokens(PlainAndHotfix(), PatchesDir, SpitDir, immovable, tokens, results, fs')
    ensures "README" in Entries(fs', PatchesDir)
    ensures "hotfix-1.patch" !in immovable ==> fs' == HotfixMoved()
  {
    hide RunsTokens;
    var names := PlainAndHotfix()[PatchesDir];
    DirsDistinct();
    assert names == {"README", "hotfix-1.patch"};
    assert "README" in tokens && "hotfix-1.patch" in tokens;
    assert |tokens| >= 2;
    var last := |tokens| - 1;
    assert tokens[0] in names && tokens[1] in names && tokens[last] in names;
    assert last < 2;
    assert tokens == [tokens[0], tokens[1]];
    PlainAndHotfixRun(immovable, tokens[0], tokens[1], results, fs');
  }

  /** Under `-a` an entry whose name has no ticket pattern resolves to "hotfix-" and is skipped, not moved. */
  lemma AllModeSkipsPlainEntry()
    ensures var fs := map[PatchesDir := {"README"}, SpitDir := {}];
      forall r :: Legal(fs, PatchesDir, SpitDir, {}, "README", r) <==> r == Skipped(NoMatchingFile)
  {
    ReadmeFragment();
    assert !Contains("README", "hotfix-");
  }
}
