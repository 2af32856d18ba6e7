/** Properties of the resolver over all inputs: normalisation, the open
    commands, and the outcome under each kind of permission configuration. */
module ResolverProperties {
  import opened Wrappers
  import opened Text
  import opened Permissions
  import opened Users
  import opened Commands

  /** One word is kept, trimmed, exactly when it is not whitespace only;
      its key is then its lower-cased trimmed form. */
  lemma WordsOne(w: string)
    ensures Words([w]) == (if Trim(w) == [] then [] else [Trim(w)])
    ensures Keys([w]) == (if Trim(w) == [] then [] else [Lower(Trim(w))])
  {
    assert [w][1..] == [];
  }

  /** The kept words of `[w] + rest`: `w` trimmed, unless it is blank,
      in front of the kept words of `rest`. */
  lemma WordsCons(w: string, rest: seq<string>)
    ensures Words([w] + rest) == (if Trim(w) == [] then [] else [Trim(w)]) + Words(rest)
  {
    var c := [w] + rest;
    assert c[0] == w && c[1..] == rest;
  }

  /** Normalisation works word by word: the kept words of `a + b` are
      those of `a` followed by those of `b`. With `WordsOne` this fixes
      `Words` on every input. */
  lemma {:induction false} WordsAppend(a: seq<string>, b: seq<string>)
    ensures Words(a + b) == Words(a) + Words(b)
  {
    if a == [] {
      assert a + b == b;
    } else {
      var w, rest := a[0], a[1..];
      assert a == [w] + rest;
      assert a + b == [w] + (rest + b);
      WordsCons(w, rest + b);
      WordsCons(w, rest);
      WordsAppend(rest, b);
      var h := if Trim(w) == [] then [] else [Trim(w)];
      PrefixStep(h, Words(rest), Words(b));
    }
  }

  lemma PrefixStep(h: seq<string>, x: seq<string>, y: seq<string>)
    ensures h + (x + y) == (h + x) + y
  {
  }

  /** Every word of `ws` lower-cased. */
  function LowerAll(ws: seq<string>): seq<string> {
    seq(|ws|, k requires 0 <= k < |ws| => Lower(ws[k]))
  }

  /** The keys are the kept words lower-cased. */
  lemma KeysAreLowerWords(raw: seq<string>)
    ensures Keys(raw) == LowerAll(Words(raw))
  {
  }

  lemma LowerAllAppend(x: seq<string>, y: seq<string>)
    ensures LowerAll(x + y) == LowerAll(x) + LowerAll(y)
  {
  }

  /** The keys of `a + b` are those of `a` followed by those of `b`. With
      `WordsOne` this fixes `Keys` on every input. */
  lemma KeysAppend(a: seq<string>, b: seq<string>)
    ensures Keys(a + b) == Keys(a) + Keys(b)
  {
    WordsAppend(a, b);
    KeysAreLowerWords(a + b);
    KeysAreLowerWords(a);
    KeysAreLowerWords(b);
    LowerAllAppend(Words(a), Words(b));
  }

  /** Sequences with the same kept words have the same keys. */
  lemma KeysOfSameWords(x: seq<string>, y: seq<string>)
    requires Words(x) == Words(y)
    ensures Keys(x) == Keys(y)
  {
  }

  /** Words that are whitespace only are dropped wherever they occur. */
  lemma BlankWordDropped(a: seq<string>, w: string, b: seq<string>)
    requires Trim(w) == []
    ensures Words(a + [w] + b) == Words(a + b)
    ensures Keys(a + [w] + b) == Keys(a + b)
  {
    WordsAppend(a + [w], b);
    WordsAppend(a, [w]);
    WordsOne(w);
    assert Words(a + [w]) == Words(a);
    WordsAppend(a, b);
    KeysOfSameWords(a + [w] + b, a + b);
  }

  /** When no word is blank, every word is kept: the `k`-th kept word is
      the `k`-th word trimmed. */
  lemma {:induction false} WordsOfNonBlank(raw: seq<string>)
    requires forall k :: 0 <= k < |raw| ==> Trim(raw[k]) != []
    ensures |Words(raw)| == |raw|
    ensures forall k :: 0 <= k < |raw| ==> Words(raw)[k] == Trim(raw[k])
  {
    if raw != [] {
      var w, rest := raw[0], raw[1..];
      assert raw == [w] + rest;
      WordsCons(w, rest);
      WordsOfNonBlank(rest);
      forall k | 1 <= k < |raw| ensures Words(raw)[k] == Trim(raw[k]) {
        assert raw[k] == rest[k - 1];
      }
    }
  }

  /** When no word is blank, normalisation keeps every word: the `k`-th
      kept word is the `k`-th word trimmed and the `k`-th key is its key. */
  lemma KeysOfNonBlank(raw: seq<string>)
    requires forall k :: 0 <= k < |raw| ==> Trim(raw[k]) != []
    ensures |Words(raw)| == |raw| && |Keys(raw)| == |raw|
    ensures forall k :: 0 <= k < |raw| ==> Words(raw)[k] == Trim(raw[k])
    ensures forall k :: 0 <= k < |raw| ==> Keys(raw)[k] == Key(raw[k])
  {
    WordsOfNonBlank(raw);
  }

  /** Words that are trimmed and not blank are kept as they are, and their
      keys are their lower-case forms. */
  lemma WordsOfTrimmed(ws: seq<string>)
    requires forall k :: 0 <= k < |ws| ==> ws[k] != [] && Trimmed(ws[k])
    ensures Words(ws) == ws
    ensures |Keys(ws)| == |ws| && forall k :: 0 <= k < |ws| ==> Keys(ws)[k] == Lower(ws[k])
  {
    forall k | 0 <= k < |ws| ensures Trim(ws[k]) == ws[k] {
      TrimOfTrimmed(ws[k]);
    }
    KeysOfNonBlank(ws);
  }

  /** Keys are their own keys. */
  lemma KeysOfKeys(ws: seq<string>)
    requires forall k :: 0 <= k < |ws| ==> IsKey(ws[k])
    ensures Keys(ws) == ws
  {
    WordsOfTrimmed(ws);
    forall k | 0 <= k < |ws| ensures Lower(ws[k]) == ws[k] {
      LowerOfLower(ws[k]);
    }
  }

  /** Normalisation is idempotent: normalising the keys again gives the
      same keys. */
  lemma NormalisationIdempotent(raw: seq<string>)
    ensures Keys(Keys(raw)) == Keys(raw)
  {
    KeysOfKeys(Keys(raw));
  }

  /** Word sequences that agree word by word after trimming and
      lower-casing have the same keys, and keep the same number of words. */
  lemma {:induction false} KeysAgree(w1: seq<string>, w2: seq<string>)
    requires |w1| == |w2|
    requires forall k :: 0 <= k < |w1| ==> Key(w1[k]) == Key(w2[k])
    ensures Keys(w1) == Keys(w2)
    ensures |Words(w1)| == |Words(w2)|
  {
    if w1 != [] {
      KeysAgree(w1[1..], w2[1..]);
    }
  }

  /** Two commands with the same outcome: equal, or toggles in the same
      direction (the monitor name keeps the case it was typed in). */
  predicate SameOutcome(a: Cmd, b: Cmd) {
    a == b || (a.ToggleMonitor? && b.ToggleMonitor? && a.enable == b.enable)
  }

  /** Matching is case-insensitive and ignores whitespace around each word:
      word sequences that agree after trimming and lower-casing resolve to
      the same outcome for every user and configuration. */
  lemma CaseAndPaddingInsensitive(w1: seq<string>, w2: seq<string>, userId: Option<string>,
                                  config: Option<Config>, directory: map<string, string>)
    requires |w1| == |w2|
    requires forall k :: 0 <= k < |w1| ==> Key(w1[k]) == Key(w2[k])
    ensures SameOutcome(GetCommand(w1, userId, config, directory), GetCommand(w2, userId, config, directory))
  {
    KeysAgree(w1, w2);
    var keys := Keys(w1);
    var r1 := GetCommand(w1, userId, config, directory);
    var r2 := GetCommand(w2, userId, config, directory);
    if Recognised(keys) && keys != HelpWords {
      var i :| 0 <= i < |Table| && Fits(Table[i], keys);
      var p := Table[i];
      if Allows(UserAccess(userId, config, directory), Name(p), p.tag) {
        assert r1 == Build(p, Words(w1)[|p.words|..]);
        assert r2 == Build(p, Words(w2)[|p.words|..]);
        BuildShape(p, Words(w1)[|p.words|..], Words(w2)[|p.words|..]);
      }
    }
  }

  /** What a row builds depends on its arguments only through a toggle's
      monitor name. */
  lemma BuildShape(p: Pattern, a1: seq<string>, a2: seq<string>)
    ensures SameOutcome(Build(p, a1), Build(p, a2))
  {
  }

  /** Matching ignores letter case: word sequences that are equal word by
      word up to ASCII letter case resolve to the same outcome for every
      user and configuration. */
  lemma CaseInsensitive(w1: seq<string>, w2: seq<string>, userId: Option<string>,
                        config: Option<Config>, directory: map<string, string>)
    requires |w1| == |w2|
    requires forall k :: 0 <= k < |w1| ==> EqualIgnoringCase(w1[k], w2[k])
    ensures SameOutcome(GetCommand(w1, userId, config, directory), GetCommand(w2, userId, config, directory))
  {
    forall k | 0 <= k < |w1| ensures Key(w1[k]) == Key(w2[k]) {
      LowerTrim(w1[k]);
      LowerTrim(w2[k]);
      LowerIgnoresCase(w1[k], w2[k]);
    }
    CaseAndPaddingInsensitive(w1, w2, userId, config, directory);
  }

  /** `help`, however it is cased or padded, resolves to `Help` for every
      user and every configuration, so it is never denied. */
  lemma HelpAlwaysAllowed(w: string, userId: Option<string>, config: Option<Config>,
                          directory: map<string, string>)
    requires Key(w) == "help"
    ensures GetCommand([w], userId, config, directory) == Help
  {
    KeysOfNonBlank([w]);
  }

  /** The first word of every table row. */
  lemma TableHeads()
    ensures forall i :: 0 <= i < |Table| ==> |Table[i].words| >= 1 && Table[i].words[0] in {"list", "enable", "disable"}
  {
  }

  /** Words whose first key starts no command resolve to `Unknown` for
      every user and every configuration, including one granting `any`;
      blank words anywhere are ignored. */
  lemma UnmatchedIsUnknown(words: seq<string>, userId: Option<string>, config: Option<Config>,
                           directory: map<string, string>)
    requires |Keys(words)| >= 1 && Keys(words)[0] !in {"help", "list", "enable", "disable"}
    ensures GetCommand(words, userId, config, directory) == Unknown
  {
    var keys := Keys(words);
    TableHeads();
    assert keys != HelpWords;
  }

  /** Without a configuration, or without a `Permissions` section, nothing
      is denied: every recognised command runs, read and write alike. */
  lemma NoSectionAllowsAll(words: seq<string>, userId: Option<string>, config: Option<Config>,
                           directory: map<string, string>)
    requires config.None? || config.value.permissions.None?
    ensures GetCommand(words, userId, config, directory) != Denied
    ensures GetCommand(words, userId, config, directory) == Unknown <==> !Recognised(Keys(words))
  {
  }

  /** The permission names of the table rows. */
  lemma TableNames()
    ensures Name(Table[0]) == "list monitors"
    ensures Name(Table[1]) == "enable monitor"
    ensures Name(Table[2]) == "disable monitor"
  {
  }

  /** No command name coincides with a capability tag or with `any`, and the
      names are pairwise distinct. */
  lemma NamesAreNotTags(i: nat, j: nat)
    requires i < |Table| && j < |Table|
    ensures Name(Table[i]) != TagName(Read) && Name(Table[i]) != TagName(Write) && Name(Table[i]) != AnyToken
    ensures i != j ==> Name(Table[i]) != Name(Table[j])
  {
    TableNames();
    // Distinct literals differ in their first character.
    assert "list monitors"[0] == 'l' && "enable monitor"[0] == 'e' && "disable monitor"[0] == 'd';
    assert "read"[0] == 'r' && "write"[0] == 'w' && "any"[0] == 'a';
  }

  /** Under a user's token set that names no command and not `any`, a
      matched command runs exactly when its tag is among the tokens. */
  lemma TagTokensDecide(words: seq<string>, userId: Option<string>, config: Option<Config>,
                        directory: map<string, string>, ts: set<string>, i: nat)
    requires UserAccess(userId, config, directory) == Granted(ts)
    requires AnyToken !in ts
    requires forall j :: 0 <= j < |Table| ==> Name(Table[j]) !in ts
    requires i < |Table| && Fits(Table[i], Keys(words))
    ensures GetCommand(words, userId, config, directory) == Denied <==> TagName(Table[i].tag) !in ts
  {
    forall j | 0 <= j < |Table| && Fits(Table[j], Keys(words)) ensures j == i {
      FitsUnique(Keys(words), i, j);
    }
  }

  /** A `Permissions` section with no entries gives everyone read access
      only: a matched read command runs and a matched write command is
      `Denied`. */
  lemma EmptySectionReadOnly(words: seq<string>, userId: Option<string>, directory: map<string, string>, i: nat)
    requires i < |Table| && Fits(Table[i], Keys(words))
    ensures var r := GetCommand(words, userId, Some(Config(Some(map[]))), directory);
            r == Denied <==> Table[i].tag == Write
  {
    forall j | 0 <= j < |Table| ensures Name(Table[j]) !in {TagName(Read)} {
      NamesAreNotTags(j, j);
    }
    assert AnyToken !in {TagName(Read)} by {
      assert "any"[0] == 'a';
    }
    TagTokensDecide(words, userId, Some(Config(Some(map[]))), directory, {TagName(Read)}, i);
  }

  /** A user who is not listed in a non-empty `Permissions` section, or
      whose id is unknown, runs no capability-gated command: a match is
      always `Denied`. */
  lemma UnlistedUserRunsNothing(words: seq<string>, userId: Option<string>, section: map<string, string>,
                                directory: map<string, string>)
    requires |section| > 0
    requires var user := Resolve(directory, userId); user.None? || user.value !in section
    ensures var r := GetCommand(words, userId, Some(Config(Some(section))), directory);
            !r.ListMonitors? && !r.ToggleMonitor?
    ensures Recognised(Keys(words)) && Keys(words) != HelpWords
            ==> GetCommand(words, userId, Some(Config(Some(section))), directory) == Denied
  {
    assert UserAccess(userId, Some(Config(Some(section))), directory) == Granted({});
  }

  /** The token `any` lets every recognised command run. */
  lemma AnyTokenAllowsAll(words: seq<string>, userId: Option<string>, config: Option<Config>,
                          directory: map<string, string>, ts: set<string>)
    requires UserAccess(userId, config, directory) == Granted(ts)
    requires AnyToken in ts
    ensures GetCommand(words, userId, config, directory) != Denied
  {
  }

  /** A token naming command `j`, with no tag token and no `any`, lets
      exactly that command run: every other matched command is `Denied`,
      including one with the same tag. */
  lemma CommandTokenGrantsExactly(words: seq<string>, userId: Option<string>, config: Option<Config>,
                                  directory: map<string, string>, j: nat, i: nat)
    requires j < |Table|
    requires UserAccess(userId, config, directory) == Granted({Name(Table[j])})
    requires i < |Table| && Fits(Table[i], Keys(words))
    ensures GetCommand(words, userId, config, directory) == Denied <==> i != j
  {
    var r := GetCommand(words, userId, config, directory);
    var p := Table[i];
    AllowsByName(i, j);
    assert Allows(Granted({Name(Table[j])}), Name(p), p.tag) <==> i == j;
    if i == j {
      assert r == Build(p, Words(words)[|p.words|..]);
    }
  }

  /** Holding only the name of command `j`, command `i` may run exactly when
      it is command `j`. */
  lemma AllowsByName(i: nat, j: nat)
    requires i < |Table| && j < |Table|
    ensures Allows(Granted({Name(Table[j])}), Name(Table[i]), Table[i].tag) <==> i == j
  {
    NamesAreNotTags(i, j);
    NamesAreNotTags(j, i);
  }

  /** Granting a user more tokens never turns an allowed command into a
      denied one, and never changes what an allowed command resolves to. */
  lemma MoreTokensNeverDeny(words: seq<string>, userId: Option<string>, c1: Option<Config>, c2: Option<Config>,
                            directory: map<string, string>, ts: set<string>, us: set<string>)
    requires UserAccess(userId, c1, directory) == Granted(ts)
    requires UserAccess(userId, c2, directory) == Granted(us)
    requires ts <= us
    requires GetCommand(words, userId, c1, directory) != Denied
    ensures GetCommand(words, userId, c2, directory) == GetCommand(words, userId, c1, directory)
  {
    var keys := Keys(words);
    if Recognised(keys) && keys != HelpWords {
      var i :| 0 <= i < |Table| && Fits(Table[i], keys);
      AllowsMonotone(ts, us, Name(Table[i]), Table[i].tag);
    }
  }
}
