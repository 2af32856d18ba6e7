/** The command resolver `get_command(words, user_id, config)`: normalise the
    words, match them against the fixed command table, and authorise the
    matched command for the user. */
module Commands {
  import opened Wrappers
  import opened Text
  import opened Permissions
  import opened Users

  /** The resolution result. `Help` and `Unknown` are never subject to a
      permission check; `Denied` means a command matched but the user may
      not run it. */
  datatype Cmd =
    | Help
    | Unknown
    | ListMonitors
    | ToggleMonitor(enable: bool, name: string)
    | Denied

  /** What a matched table row produces. */
  datatype Action = List | Toggle(enable: bool)

  /** One row of the command table: the action, its leading words, and the
      capability it requires. */
  datatype Pattern = Pattern(action: Action, words: seq<string>, tag: Tag)

  const HelpWords: seq<string> := ["help"]

  /** The capability-gated commands. */
  const Table: seq<Pattern> := [
    Pattern(List, ["list", "monitors"], Read),
    Pattern(Toggle(true), ["enable", "monitor"], Write),
    Pattern(Toggle(false), ["disable", "monitor"], Write)
  ]

  /** The name a permission token uses for a command: its words separated by
      one space, as in `enable monitor`. */
  function Name(p: Pattern): string {
    Join(p.words, ' ')
  }

  /** The keys start with the row's words; a toggle needs at least one more
      word (the monitor name), a listing takes none. */
  predicate Fits(p: Pattern, keys: seq<string>) {
    && |p.words| <= |keys|
    && keys[..|p.words|] == p.words
    && (p.action.Toggle? <==> |p.words| < |keys|)
  }

  predicate Recognised(keys: seq<string>) {
    keys == HelpWords || exists p :: p in Table && Fits(p, keys)
  }

  /** A normalised key: non-empty, trimmed and without upper-case letters. */
  predicate IsKey(w: string) {
    w != [] && Trimmed(w) && NoUpper(w)
  }

  /** The words with surrounding whitespace trimmed and the words that were
      whitespace only dropped, in order. */
  function Words(raw: seq<string>): (ws: seq<string>)
    ensures |ws| <= |raw|
    ensures forall k :: 0 <= k < |ws| ==> ws[k] != [] && Trimmed(ws[k])
  {
    if raw == [] then []
    else if Trim(raw[0]) == [] then Words(raw[1..])
    else [Trim(raw[0])] + Words(raw[1..])
  }

  /** The matching key of one word: trimmed and lower-cased. */
  function Key(w: string): (k: string)
    ensures k == [] <==> Trim(w) == []
    ensures k != [] ==> IsKey(k)
  {
    LowerProperties(Trim(w));
    Lower(Trim(w))
  }

  /** The keys the table is matched against: the key of every word that is
      not whitespace only, in order, one per kept word. */
  function Keys(raw: seq<string>): (ks: seq<string>)
    ensures |ks| == |Words(raw)|
    ensures forall k :: 0 <= k < |ks| ==> ks[k] == Lower(Words(raw)[k])
    ensures forall k :: 0 <= k < |ks| ==> IsKey(ks[k])
  {
    if raw == [] then []
    else if Key(raw[0]) == [] then Keys(raw[1..])
    else [Key(raw[0])] + Keys(raw[1..])
  }

  /** The first table row at or after `i` that fits the keys. */
  function FindFrom(keys: seq<string>, i: nat): (r: Option<nat>)
    requires i <= |Table|
    decreases |Table| - i
    ensures r.Some? ==> i <= r.value < |Table| && Fits(Table[r.value], keys)
    ensures r.None? <==> forall j :: i <= j < |Table| ==> !Fits(Table[j], keys)
  {
    if i == |Table| then None
    else if Fits(Table[i], keys) then Some(i)
    else FindFrom(keys, i + 1)
  }

  /** The command a fitting row produces; a toggle's monitor name is the
      remaining words, trimmed but in their original case, joined by one
      space. */
  function Build(p: Pattern, args: seq<string>): Cmd {
    match p.action
    case List => ListMonitors
    case Toggle(e) => ToggleMonitor(e, Join(args, ' '))
  }

  /** The access of the user behind `userId`. */
  function UserAccess(userId: Option<string>, config: Option<Config>, directory: map<string, string>): Access {
    AccessOf(config, Resolve(directory, userId))
  }

  /** At most one table row fits any key sequence. */
  lemma FitsUnique(keys: seq<string>, i: nat, j: nat)
    requires i < |Table| && j < |Table|
    requires Fits(Table[i], keys) && Fits(Table[j], keys)
    ensures i == j
  {
    assert keys[..|Table[i].words|][0] == Table[i].words[0];
    assert keys[..|Table[j].words|][0] == Table[j].words[0];
  }

  /** `help` is not a table row. */
  lemma HelpNotInTable(keys: seq<string>)
    requires keys == HelpWords
    ensures forall i :: 0 <= i < |Table| ==> !Fits(Table[i], keys)
  {
    forall i | 0 <= i < |Table| ensures !Fits(Table[i], keys) {
      assert |Table[i].words| == 2;
    }
  }

  /** Decides the command for normalised input: `keys` are the matching
      keys and `ws` the kept words they come from, one key per word, and
      `access` is what the user may run.
      - `help` is `Help`;
      - keys that fit no row are `Unknown`, never `Denied`;
      - a fitting row is `Denied` exactly when `access` does not allow it,
        and otherwise is the command the row builds from the words after
        the row's own. */
  function Decide(keys: seq<string>, ws: seq<string>, access: Access): (r: Cmd)
    requires |keys| == |ws|
    ensures r == Help <==> keys == HelpWords
    ensures r == Unknown <==> !Recognised(keys)
    ensures r == Denied <==> exists p :: p in Table && Fits(p, keys) && !Allows(access, Name(p), p.tag)
    ensures forall p :: p in Table && Fits(p, keys) && Allows(access, Name(p), p.tag)
                     ==> r == Build(p, ws[|p.words|..])
  {
    if keys == HelpWords then
      HelpNotInTable(keys);
      Help
    else
      match FindFrom(keys, 0)
      case None => Unknown
      case Some(i) =>
        var p := Table[i];
        forall j | 0 <= j < |Table| && Fits(Table[j], keys) ensures j == i {
          FitsUnique(keys, i, j);
        }
        if Allows(access, Name(p), p.tag) then Build(p, ws[|p.words|..]) else Denied
  }

  /** Resolves `words` issued by `userId` under `config`, looking the user up
      in `directory`: the words are normalised and the command decided for
      the user's access. */
  function GetCommand(words: seq<string>, userId: Option<string>, config: Option<Config>,
                      directory: map<string, string>): (r: Cmd)
    ensures r == Help <==> Keys(words) == HelpWords
    ensures r == Unknown <==> !Recognised(Keys(words))
    ensures r == Denied <==> exists p :: p in Table && Fits(p, Keys(words))
                                     && !Allows(UserAccess(userId, config, directory), Name(p), p.tag)
    ensures forall p :: p in Table && Fits(p, Keys(words)) && Allows(UserAccess(userId, config, directory), Name(p), p.tag)
                     ==> r == Build(p, Words(words)[|p.words|..])
  {
    Decide(Keys(words), Words(words), UserAccess(userId, config, directory))
  }
}
