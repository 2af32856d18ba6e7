/** The behaviour the test suite pins down, one lemma per test: the words
    `help`, `list monitors`, `enable monitor Blammo`, `disable monitor
    Blammo` and `something else`, resolved for user `me` under each
    permission configuration. */
module Scenarios {
  import opened Wrappers
  import opened Text
  import opened Permissions
  import opened Users
  import opened Commands
  import opened ResolverProperties

  // Proof style. Several helper lemmas below take a word or a word list as a
  // parameter pinned by `requires ws == <literal>` instead of naming the
  // literal in the body. The statements are the same, but a literal written
  // inline lets the verifier evaluate every recursive function applied to it
  // eagerly, which makes these small proofs far more expensive. Likewise, two
  // different string literals are told apart by asserting one character of
  // each (`assert "read"[0] == 'r'`), which is cheaper for the verifier than
  // comparing the strings whole.

  const HelpW: seq<string> := ["help"]
  const ListW: seq<string> := ["list", "monitors"]
  const EnableW: seq<string> := ["enable", "monitor", "Blammo"]
  const DisableW: seq<string> := ["disable", "monitor", "Blammo"]
  const ElseW: seq<string> := ["something", "else"]

  /** The user directory after `me` has been registered as `me`. */
  const Directory: map<string, string> := map["me" := "me"]

  /** A configuration whose `Permissions` section lists `me` with `value`. */
  function Listing(value: string): Option<Config> {
    Some(Config(Some(map["me" := value])))
  }

  /** The keys of `help` and `list monitors`. */
  lemma PlainKeys(h: seq<string>, l: seq<string>)
    requires h == HelpW && l == ListW
    ensures Keys(h) == HelpWords && Keys(l) == Table[0].words
  {
    assert IsKey(h[0]);
    KeysOfKeys(h);
    assert IsKey(l[0]) && IsKey(l[1]);
    KeysOfKeys(l);
  }

  /** The keys of a toggle start with its two command words; the monitor
      name keeps its case. */
  lemma ToggleKeys(ws: seq<string>, verb: string)
    requires IsKey(verb) && ws == [verb, "monitor", "Blammo"]
    ensures |Keys(ws)| == 3 && Keys(ws)[..2] == [verb, "monitor"]
    ensures Words(ws)[2..] == ["Blammo"]
  {
    assert ws[1] != [] && Trimmed(ws[1]);
    assert ws[2] != [] && Trimmed(ws[2]);
    WordsOfTrimmed(ws);
    LowerOfLower(verb);
    LowerOfLower("monitor");
    var k := Keys(ws);
    assert k[0] == verb && k[1] == "monitor";
    var p := k[..2];
    assert |p| == 2 && p[0] == verb && p[1] == "monitor";
    assert ws[2..] == ["Blammo"];
  }

  /** Two plain words, the first of which starts no command, resolve to
      `Unknown`. */
  lemma TwoWordsUnmatched(ws: seq<string>, userId: Option<string>, config: Option<Config>,
                          directory: map<string, string>)
    requires |ws| == 2 && IsKey(ws[0]) && IsKey(ws[1])
    requires ws[0] !in {"help", "list", "enable", "disable"}
    ensures GetCommand(ws, userId, config, directory) == Unknown
  {
    WordsOfTrimmed(ws);
    LowerOfLower(ws[0]);
    UnmatchedIsUnknown(ws, userId, config, directory);
  }

  /** `something else` starts no command. */
  lemma ElseUnmatched(ws: seq<string>, userId: Option<string>, config: Option<Config>, directory: map<string, string>)
    requires ws == ElseW
    ensures GetCommand(ws, userId, config, directory) == Unknown
  {
    assert ws[0][0] == 's';
    TwoWordsUnmatched(ws, userId, config, directory);
  }

  /** `unknown command` starts no command. */
  lemma UnknownCommandUnmatched(ws: seq<string>, userId: Option<string>, config: Option<Config>,
                                directory: map<string, string>)
    requires ws == ["unknown", "command"]
    ensures GetCommand(ws, userId, config, directory) == Unknown
  {
    assert ws[0][0] == 'u';
    TwoWordsUnmatched(ws, userId, config, directory);
  }

  /** The five test commands under an access in which `list monitors` is
      allowed exactly when `allowList` holds, and `enable monitor` and
      `disable monitor` exactly when `allowEnable` and `allowDisable` hold. */
  ghost predicate Outcomes(config: Option<Config>, userId: Option<string>, directory: map<string, string>,
                           allowList: bool, allowEnable: bool, allowDisable: bool)
  {
    && GetCommand(HelpW, userId, config, directory) == Help
    && GetCommand(ListW, userId, config, directory) == (if allowList then ListMonitors else Denied)
    && GetCommand(EnableW, userId, config, directory) == (if allowEnable then ToggleMonitor(true, "Blammo") else Denied)
    && GetCommand(DisableW, userId, config, directory) == (if allowDisable then ToggleMonitor(false, "Blammo") else Denied)
    && GetCommand(ElseW, userId, config, directory) == Unknown
  }

  /** `help` resolves to `Help` whoever asks. */
  lemma HelpOutcome(config: Option<Config>, userId: Option<string>, directory: map<string, string>)
    ensures GetCommand(HelpW, userId, config, directory) == Help
  {
    PlainKeys(HelpW, ListW);
  }

  /** `list monitors` runs exactly when listing is allowed. */
  lemma ListOutcome(config: Option<Config>, userId: Option<string>, directory: map<string, string>)
    ensures GetCommand(ListW, userId, config, directory)
              == (if Allows(UserAccess(userId, config, directory), Name(Table[0]), Read)
                  then ListMonitors else Denied)
  {
    PlainKeys(HelpW, ListW);
  }

  /** `enable monitor Blammo` runs exactly when enabling is allowed. */
  lemma EnableOutcome(ws: seq<string>, config: Option<Config>, userId: Option<string>, directory: map<string, string>)
    requires ws == EnableW
    ensures GetCommand(ws, userId, config, directory)
              == (if Allows(UserAccess(userId, config, directory), Name(Table[1]), Write)
                  then ToggleMonitor(true, "Blammo") else Denied)
  {
    ToggleKeys(ws, "enable");
    assert Fits(Table[1], Keys(ws));
    assert Join(["Blammo"], ' ') == "Blammo";
  }

  /** `disable monitor Blammo` runs exactly when disabling is allowed. */
  lemma DisableOutcome(ws: seq<string>, config: Option<Config>, userId: Option<string>, directory: map<string, string>)
    requires ws == DisableW
    ensures GetCommand(ws, userId, config, directory)
              == (if Allows(UserAccess(userId, config, directory), Name(Table[2]), Write)
                  then ToggleMonitor(false, "Blammo") else Denied)
  {
    ToggleKeys(ws, "disable");
    assert Fits(Table[2], Keys(ws));
    assert Join(["Blammo"], ' ') == "Blammo";
  }

  /** The five test commands resolve according to what the user's access
      allows each table row. */
  lemma OutcomesFromAccess(config: Option<Config>, userId: Option<string>, directory: map<string, string>)
    ensures var a := UserAccess(userId, config, directory);
            Outcomes(config, userId, directory,
                     Allows(a, Name(Table[0]), Read), Allows(a, Name(Table[1]), Write), Allows(a, Name(Table[2]), Write))
  {
    HelpOutcome(config, userId, directory);
    ListOutcome(config, userId, directory);
    EnableOutcome(EnableW, config, userId, directory);
    DisableOutcome(DisableW, config, userId, directory);
    ElseUnmatched(ElseW, userId, config, directory);
  }

  /** test_help: `help` with no configuration and no user. */
  lemma TestHelp(directory: map<string, string>)
    ensures GetCommand(["help"], None, None, directory) == Help
  {
    PlainKeys(HelpW, ListW);
  }

  /** test_unknown: `unknown command` with no configuration and no user. */
  lemma TestUnknown(directory: map<string, string>)
    ensures GetCommand(["unknown", "command"], None, None, directory) == Unknown
  {
    UnknownCommandUnmatched(["unknown", "command"], None, None, directory);
  }

  /** `LiST` is `list` once lower-cased. */
  lemma KeyOfList(w: string)
    requires w == "LiST"
    ensures Key(w) == "list"
  {
    TrimOfTrimmed(w);
    var l := Lower(w);
    assert |l| == 4 && l[0] == 'l' && l[1] == 'i' && l[2] == 's' && l[3] == 't';
  }

  /** `    moniTorS   ` is `monitors` once trimmed and lower-cased. */
  lemma KeyOfMonitors(w: string, m: string)
    requires w == "    moniTorS   " && m == "moniTorS"
    ensures Key(w) == "monitors"
  {
    assert w == "    " + m + "   ";
    TrimPadded("    ", m, "   ");
    var l := Lower(m);
    assert |l| == 8 && l[0] == 'm' && l[1] == 'o' && l[2] == 'n' && l[3] == 'i';
    assert l[4] == 't' && l[5] == 'o' && l[6] == 'r' && l[7] == 's';
  }

  /** test_weird_case: mixed case and padding still select `list monitors`. */
  lemma TestWeirdCase(directory: map<string, string>)
    ensures GetCommand(["LiST", "    moniTorS   "], None, None, directory) == ListMonitors
  {
    var raw := ["LiST", "    moniTorS   "];
    KeyOfList(raw[0]);
    KeyOfMonitors(raw[1], "moniTorS");
    KeysOfNonBlank(raw);
    var keys := Keys(raw);
    assert keys[0] == "list" && keys[1] == "monitors";
    assert keys == Table[0].words;
  }

  /** test_permission_no_section: without a `Permissions` section every
      command runs, writes included. */
  lemma TestPermissionNoSection()
    ensures Outcomes(Some(Config(None)), Some("me"), Directory, true, true, true)
  {
    OutcomesFromAccess(Some(Config(None)), Some("me"), Directory);
  }

  /** Holding only the token of one tag, a command may run exactly when it
      carries that tag. */
  lemma TagOnlyFlags(ts: set<string>, tag: Tag)
    requires ts == {TagName(tag)}
    ensures Allows(Granted(ts), Name(Table[0]), Read) <==> tag == Read
    ensures Allows(Granted(ts), Name(Table[1]), Write) <==> tag == Write
    ensures Allows(Granted(ts), Name(Table[2]), Write) <==> tag == Write
  {
    NamesAreNotTags(0, 0);
    NamesAreNotTags(1, 1);
    NamesAreNotTags(2, 2);
    assert "any"[0] == 'a' && "read"[0] == 'r' && "write"[0] == 'w';
  }

  /** test_permission_empty_section: an empty section allows reading only. */
  lemma TestPermissionEmptySection()
    ensures Outcomes(Some(Config(Some(map[]))), Some("me"), Directory, true, false, false)
  {
    var config := Some(Config(Some(map[])));
    assert UserAccess(Some("me"), config, Directory) == Granted({TagName(Read)});
    TagOnlyFlags({TagName(Read)}, Read);
    OutcomesFromAccess(config, Some("me"), Directory);
  }

  /** The access of `me`, listed in a section with `value`. */
  lemma SectionAccess(value: string, section: map<string, string>)
    requires section == map["me" := value]
    ensures AccessOf(Some(Config(Some(section))), Some("me")) == Granted(Tokens(value))
  {
    assert "me" in section;
  }

  /** The access `me` has when listed with `value`. */
  lemma ListedAccess(value: string)
    ensures UserAccess(Some("me"), Listing(value), Directory) == Granted(Tokens(value))
  {
    assert Resolve(Directory, Some("me")) == Some("me");
    SectionAccess(value, map["me" := value]);
  }

  /** The five test commands for `me` listed with `value`, given what its
      tokens allow. */
  lemma ListedOutcomes(value: string, ts: set<string>, allowList: bool, allowEnable: bool, allowDisable: bool)
    requires Tokens(value) == ts
    requires Allows(Granted(ts), Name(Table[0]), Read) == allowList
    requires Allows(Granted(ts), Name(Table[1]), Write) == allowEnable
    requires Allows(Granted(ts), Name(Table[2]), Write) == allowDisable
    ensures Outcomes(Listing(value), Some("me"), Directory, allowList, allowEnable, allowDisable)
  {
    ListedAccess(value);
    OutcomesFromAccess(Listing(value), Some("me"), Directory);
  }

  /** A list holding one bare token stands for that token. */
  lemma SingleToken(t: string)
    requires IsToken(t)
    ensures Tokens(t) == {t}
  {
    assert [] + t + [] == t;
    TokensPadded([], t, []);
    LowerOfLower(t);
  }

  /** The tag names are tokens. */
  lemma TagNamesAreTokens(tag: Tag)
    ensures IsToken(TagName(tag))
  {
    assert "read"[0] == 'r' && "write"[0] == 'w';
  }

  /** test_permission_read: `read` allows listing and denies both toggles. */
  lemma TestPermissionRead()
    ensures Outcomes(Listing("read"), Some("me"), Directory, true, false, false)
  {
    TagNamesAreTokens(Read);
    SingleToken(TagName(Read));
    TagOnlyFlags({TagName(Read)}, Read);
    ListedOutcomes(TagName(Read), {TagName(Read)}, true, false, false);
  }

  /** test_permission_write: `write` allows both toggles and denies listing. */
  lemma TestPermissionWrite()
    ensures Outcomes(Listing("write"), Some("me"), Directory, false, true, true)
  {
    TagNamesAreTokens(Write);
    SingleToken(TagName(Write));
    TagOnlyFlags({TagName(Write)}, Write);
    ListedOutcomes(TagName(Write), {TagName(Write)}, false, true, true);
  }

  /** test_permission_any: `any` allows every command. */
  lemma TestPermissionAny()
    ensures Outcomes(Listing("any"), Some("me"), Directory, true, true, true)
  {
    assert IsToken(AnyToken) by { assert "any"[0] == 'a'; }
    SingleToken(AnyToken);
    ListedOutcomes(AnyToken, {AnyToken}, true, true, true);
  }

  /** The name of a table row is a token. */
  lemma NameIsToken(i: nat)
    requires i < |Table|
    ensures IsToken(Name(Table[i]))
  {
    TableNames();
    var n := Name(Table[i]);
    assert n[0] != ' ' && n[|n| - 1] != ' ';
  }

  /** Holding only the name of row `j`, each row may run exactly when it is
      row `j`. */
  lemma NameOnlyFlags(ts: set<string>, j: nat)
    requires j < |Table| && ts == {Name(Table[j])}
    ensures Allows(Granted(ts), Name(Table[0]), Read) <==> j == 0
    ensures Allows(Granted(ts), Name(Table[1]), Write) <==> j == 1
    ensures Allows(Granted(ts), Name(Table[2]), Write) <==> j == 2
  {
    AllowsByName(0, j);
    AllowsByName(1, j);
    AllowsByName(2, j);
  }

  /** test_permission_command: `enable monitor` allows enabling only;
      `disable monitor`, a write command too, is denied. */
  lemma TestPermissionCommand()
    ensures Outcomes(Listing("enable monitor"), Some("me"), Directory, false, true, false)
  {
    TableNames();
    NameIsToken(1);
    SingleToken(Name(Table[1]));
    NameOnlyFlags({Name(Table[1])}, 1);
    ListedOutcomes(Name(Table[1]), {Name(Table[1])}, false, true, false);
  }

  /** Two tokens separated by a comma, each with whitespace in front. */
  lemma PairTokens(a: string, t: string, b: string, u: string)
    requires AllSpace(a) && AllSpace(b) && IsToken(t) && IsToken(u)
    ensures Tokens(a + t + [','] + b + u) == {t, u}
  {
    assert a + t + [','] + b + u == (a + t) + [','] + (b + u);
    TokensAppend(a + t, b + u);
    assert a + t + [] == a + t;
    TokensPadded(a, t, []);
    assert b + u + [] == b + u;
    TokensPadded(b, u, []);
    LowerOfLower(t);
    LowerOfLower(u);
  }

  /** The padded list `   read,     write` holds exactly the tokens `read`
      and `write`, the same as `read,write`. */
  lemma CombinedTokens(padded: string, plain: string)
    requires padded == "   read,     write" && plain == "read,write"
    ensures Tokens(padded) == {TagName(Read), TagName(Write)}
    ensures Tokens(plain) == {TagName(Read), TagName(Write)}
  {
    TagNamesAreTokens(Read);
    TagNamesAreTokens(Write);
    assert padded == "   " + TagName(Read) + [','] + "     " + TagName(Write);
    PairTokens("   ", TagName(Read), "     ", TagName(Write));
    assert plain == [] + TagName(Read) + [','] + [] + TagName(Write);
    PairTokens([], TagName(Read), [], TagName(Write));
  }

  /** test_permission_combined: `   read,     write` allows every command. */
  lemma TestPermissionCombined()
    ensures Outcomes(Listing("   read,     write"), Some("me"), Directory, true, true, true)
  {
    CombinedTokens("   read,     write", "read,write");
    ListedOutcomes("   read,     write", {TagName(Read), TagName(Write)}, true, true, true);
  }
}
