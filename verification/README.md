# zonebot command resolver

A Dafny model of the command resolver at the centre of zoneminder-slack-bot.
`get_command(words, user_id, config)` takes the words of a chat message, the
id of the user who sent it, and the bot's configuration. It returns one of
five commands: `Help`, `Unknown`, `ListMonitors`, `ToggleMonitor` (enable or
disable a named monitor) or `Denied`.

Resolution has three steps:

- **Normalisation** (`Commands.Words`, `Commands.Keys`). Each word is trimmed
  of surrounding whitespace, and words that were only whitespace are dropped.
  The matching keys are the trimmed words lower-cased.
- **Matching** (`Commands.Decide`, over `Commands.Table`, `Commands.Fits`
  and `Commands.FindFrom`).
  `help` is always `Help`. The capability-gated commands form a fixed table:
  - `list monitors`, tagged `read`;
  - `enable monitor <name>` and `disable monitor <name>`, tagged `write`.

  Keys that fit no row are `Unknown`, whoever asks.
- **Authorisation** (`Permissions.AccessOf`, `Permissions.Allows`). The user
  id is looked up in the user directory (`Users.Resolve`). The resulting
  user's access comes from the `Permissions` section of the configuration:
  - no configuration, or no `Permissions` section: unrestricted;
  - an empty section: everyone may read;
  - otherwise the comma-separated tokens listed for the user, none if the
    user is not listed.

  A token may be `read`, `write`, `any`, or a command's name such as
  `enable monitor`. A matched command the access does not allow is `Denied`.

Modules follow that structure:

- `Wrappers`: `Option`.
- `Text`: trimming, ASCII lower-casing, split and join.
- `Users`: the user directory.
- `Permissions`: tokens, access, and the allow decision.
- `Commands`: the command table, `Decide` and `GetCommand`.
- `ResolverProperties`: properties over all inputs.
- `Scenarios`: one lemma per test of `test/test_commands.py`, each stating the
  exact outcome that test expects for its words, user and configuration.

Without a `Permissions` section the model grants unrestricted access. The
test at `test/test_commands.py:44-63` says "anyone can do anything" in its
docstring (line 45). It also expects both write commands, enable and
disable, to run (lines 59-60).

The tests say nothing about some cases. There the model takes these
decisions:

- A user missing from a non-empty section may run no gated command.
- An id the directory does not know is treated as an anonymous user.
- `help` and `list monitors` must match exactly, with no extra words.
- A toggle needs at least one word after `monitor`. The monitor name is the
  remaining trimmed words in their original case, joined by one space.
- A configuration that is `None` is treated like one with no `Permissions`
  section.

## Model

Some members are plain definitions without a contract of their own. Rows
for other members state their behaviour:

- `Text.Lower`: `Text.LowerChar`, `Text.LowerProperties`,
  `Text.LowerIgnoresCase` and `Text.LowerTrim`.
- `Permissions.Allows`: `Permissions.AllowsMonotone`,
  `ResolverProperties.AllowsByName` and `ResolverProperties.TagTokensDecide`.
- `Commands.Table`, `Commands.Fits` and `Commands.Build`: `Commands.Decide`,
  `Commands.FitsUnique`, `ResolverProperties.TableNames` and
  `ResolverProperties.TableHeads`.

| member | source | states |
|---|---|---|
| Commands.Decide | test/test_commands.py:27-29 | For normalised keys and the user's access, the result is `Help` exactly when the keys are `help`. It is `Unknown` exactly when no table row fits. It is `Denied` exactly when the fitting row is not allowed. Otherwise it is the command that row builds from the words after the row's own. |
| Commands.GetCommand | test/test_commands.py:27-29 | The same four cases, stated for the raw words: the keys are the normalised words, and the access is the one the configuration gives the user the id resolves to. |
| Commands.Keys | test/test_commands.py:40-41 | There is one key per kept word, and key k is kept word k lower-cased. Every key is non-empty, trimmed and free of upper-case letters. |
| Commands.Words | test/test_commands.py:40-41 | The kept words are never more than the input words, and each is non-empty and trimmed. Which words are kept is fixed by `ResolverProperties.WordsOne` and `ResolverProperties.WordsAppend`. |
| Commands.Key | test/test_commands.py:41 | A word's key is empty exactly when the word is only whitespace; otherwise the key is a normalised key. |
| Commands.FindFrom | test/test_commands.py:27-29 | The search returns a row that fits the keys, and returns none exactly when no row from the start index on fits. |
| Commands.FitsUnique | test/test_commands.py:27-29 | At most one table row fits any key sequence, so matching is unambiguous. |
| Commands.HelpNotInTable | test/test_commands.py:32-33 | `help` fits no capability-gated row. |
| Users.Resolve | test/test_commands.py:47 | A user is found exactly when the id is registered, and it is the registered user. |
| Text.Trim | test/test_commands.py:41 | The result starts and ends with a non-whitespace character, and is no longer than the input. |
| Text.TrimBounds | test/test_commands.py:41 | Trimming returns a slice of the input with only whitespace cut off on each side. |
| Text.TrimPadded | test/test_commands.py:41 | Any whitespace padding around a trimmed core trims back to exactly that core, as with `    moniTorS   `. |
| Text.TrimOfTrimmed | test/test_commands.py:41 | Trimming is idempotent: a trimmed string is left unchanged. |
| Text.LowerChar | test/test_commands.py:41 | An upper-case ASCII letter becomes its lower-case partner (32 code points on), and every other character is unchanged. The result is never upper-case, and is whitespace exactly when the input is. |
| Text.LowerProperties | test/test_commands.py:41 | Lower-casing leaves no upper-case letter, keeps a trimmed string trimmed, and maps only the empty string to the empty string. |
| Text.LowerIgnoresCase | test/test_commands.py:41 | Two strings have the same lower-case form exactly when they are equal up to ASCII letter case, as `LiST` and `list` are. |
| Text.LowerTrim | test/test_commands.py:41 | Lower-casing and trimming commute. |
| Text.LowerOfLower | test/test_commands.py:41 | A string without upper-case letters is its own lower-case form, so lower-casing is idempotent. |
| Text.Split | test/test_commands.py:189 | Splitting yields at least one piece, and no piece contains the separator. |
| Text.JoinSplit | test/test_commands.py:189 | Joining the split pieces with the separator restores the original string. |
| Text.SplitNoSep | test/test_commands.py:165 | A value with no comma, such as `enable monitor`, is one piece. |
| Text.SplitAppend | test/test_commands.py:189 | The pieces of `a,b` are the pieces of `a` followed by the pieces of `b`. |
| Permissions.Tokens | test/test_commands.py:189 | Every token of a permission value is non-empty, trimmed, lower-case and comma-free. |
| Permissions.TokenSetMember | test/test_commands.py:189 | A token is granted exactly when it is non-empty and some comma-separated piece normalises to it. |
| Permissions.TokensAppend | test/test_commands.py:189 | The tokens of `a,b` are the tokens of `a` together with those of `b`. |
| Permissions.TokensPadded | test/test_commands.py:189 | A single token stands for exactly its lower-case form, whatever whitespace surrounds it. |
| Permissions.AccessOf | test/test_commands.py:44-95 | Access is unrestricted exactly when there is no configuration or no `Permissions` section. An empty section grants exactly `read`. A listed user gets exactly the tokens of its value. In a non-empty section, an anonymous or unlisted user gets no token. All granted tokens are normalised tokens. |
| Permissions.AllowsMonotone | test/test_commands.py:181-202 | Granting more tokens never withdraws a permission. |
| ResolverProperties.WordsOne | test/test_commands.py:41 | A single word is kept exactly when it is not whitespace only; it is kept trimmed, and its key is the trimmed word lower-cased. |
| ResolverProperties.WordsAppend | test/test_commands.py:40-41 | The kept words of `a + b` are those of `a` followed by those of `b`. |
| ResolverProperties.KeysAppend | test/test_commands.py:40-41 | The keys of `a + b` are those of `a` followed by those of `b`. |
| ResolverProperties.BlankWordDropped | test/test_commands.py:40-41 | A whitespace-only word, wherever it occurs, changes neither the kept words nor the keys. |
| ResolverProperties.KeysOfNonBlank | test/test_commands.py:40-41 | With no blank word, the k-th kept word is the k-th word trimmed, and the k-th key is its key. |
| ResolverProperties.WordsOfTrimmed | test/test_commands.py:36-37 | Trimmed non-blank words are kept as they are, and their keys are their lower-case forms. |
| ResolverProperties.KeysOfKeys | test/test_commands.py:32-33 | Normalised keys are their own keys. |
| ResolverProperties.NormalisationIdempotent | test/test_commands.py:40-41 | Normalising the keys again gives the same keys. |
| ResolverProperties.KeysAgree | test/test_commands.py:40-41 | Word sequences that agree word by word after normalisation have equal keys and the same number of kept words. |
| ResolverProperties.CaseAndPaddingInsensitive | test/test_commands.py:40-41 | Such word sequences resolve to the same outcome for every user and configuration. |
| ResolverProperties.CaseInsensitive | test/test_commands.py:40-41 | Word sequences equal word by word up to ASCII letter case resolve to the same outcome, for every user and configuration. |
| ResolverProperties.HelpAlwaysAllowed | test/test_commands.py:32-33 | `help`, in any case and padding, is `Help` for every user and every configuration. |
| ResolverProperties.UnmatchedIsUnknown | test/test_commands.py:36-37 | Words whose first key starts no command are `Unknown` under every configuration, including one granting `any`. Blank words are ignored. |
| ResolverProperties.NoSectionAllowsAll | test/test_commands.py:44-63 | Without a `Permissions` section nothing is `Denied`, and a result is `Unknown` exactly when the keys are unrecognised. The same holds when the configuration is `None`, which follows from the model's decision above, not from a test. |
| ResolverProperties.UnlistedUserRunsNothing | test/test_commands.py:88-95 | In a non-empty `Permissions` section, a user who is not listed, or whose id is unknown, never gets `ListMonitors` or `ToggleMonitor`. A recognised gated command is `Denied`. This is the model's decision above; no test shows it. |
| ResolverProperties.TableNames | test/test_commands.py:165 | The permission names of the rows are `list monitors`, `enable monitor` and `disable monitor`. |
| ResolverProperties.TableHeads | test/test_commands.py:36-37 | Every table row starts with `list`, `enable` or `disable`. |
| ResolverProperties.NamesAreNotTags | test/test_commands.py:165 | No command name equals `read`, `write` or `any`, and the three names are distinct. |
| ResolverProperties.TagTokensDecide | test/test_commands.py:88-131 | With tag tokens only, a matched command is `Denied` exactly when its tag is not granted. |
| ResolverProperties.EmptySectionReadOnly | test/test_commands.py:66-85 | Under an empty section, a matched command is `Denied` exactly when it is a write command. |
| ResolverProperties.AnyTokenAllowsAll | test/test_commands.py:134-154 | The token `any` leaves no command `Denied`. |
| ResolverProperties.CommandTokenGrantsExactly | test/test_commands.py:157-178 | Holding only one command's name, a matched command is `Denied` exactly when it is another command, even one with the same tag. |
| ResolverProperties.AllowsByName | test/test_commands.py:157-178 | Holding only the name of row j, row i is allowed exactly when i is j. |
| ResolverProperties.MoreTokensNeverDeny | test/test_commands.py:181-202 | Granting a superset of tokens keeps every allowed result unchanged. |
| Scenarios.TestHelp | test/test_commands.py:32-33 | `help` with no configuration and no user is `Help`. |
| Scenarios.TestUnknown | test/test_commands.py:36-37 | `unknown command` with no configuration and no user is `Unknown`. |
| Scenarios.TestWeirdCase | test/test_commands.py:40-41 | `LiST` followed by `    moniTorS   ` is `ListMonitors`. |
| Scenarios.TestPermissionNoSection | test/test_commands.py:44-63 | With no section: `Help`, `ListMonitors`, enable `Blammo`, disable `Blammo`, `Unknown`. |
| Scenarios.TestPermissionEmptySection | test/test_commands.py:66-85 | With an empty section: `Help`, `ListMonitors`, `Denied`, `Denied`, `Unknown`. |
| Scenarios.TestPermissionRead | test/test_commands.py:88-108 | With `read`: `Help`, `ListMonitors`, `Denied`, `Denied`, `Unknown`. |
| Scenarios.TestPermissionWrite | test/test_commands.py:111-131 | With `write`: `Help`, `Denied`, enable `Blammo`, disable `Blammo`, `Unknown`. |
| Scenarios.TestPermissionAny | test/test_commands.py:134-154 | With `any`: `Help`, `ListMonitors`, enable `Blammo`, disable `Blammo`, `Unknown`. |
| Scenarios.TestPermissionCommand | test/test_commands.py:157-178 | With `enable monitor`: `Help`, `Denied`, enable `Blammo`, `Denied`, `Unknown`. |
| Scenarios.CombinedTokens | test/test_commands.py:189 | `   read,     write` and `read,write` both hold exactly the tokens `read` and `write`. |
| Scenarios.TestPermissionCombined | test/test_commands.py:181-202 | With `   read,     write`: `Help`, `ListMonitors`, enable `Blammo`, disable `Blammo`, `Unknown`. |
| Scenarios.ElseUnmatched | test/test_commands.py:63 | `something else` is `Unknown` for every user and configuration. |
| Scenarios.UnknownCommandUnmatched | test/test_commands.py:37 | `unknown command` is `Unknown` for every user and configuration. |
| Scenarios.ListedAccess | test/test_commands.py:95 | User `me`, listed in the section with a value, holds exactly that value's tokens. |

## Left out

- The behaviour of the commands once resolved is not modelled: replying on Slack, and listing, enabling or disabling monitors in ZoneMinder. The resolver only chooses the command.
- Logging setup (`test/test_commands.py:17-24`) has no effect on resolution.
- The user directory is a process-wide mutable map in the source (`Command._usermap`). Here it is an explicit parameter of `GetCommand`; registering users is outside the resolver.
- The configuration parser is a library the model does not include. It lower-cases option names and has a `DEFAULT` section. The model takes the already-parsed `Permissions` section as a map from user name to value, compared exactly.
- Text.IsSpace: covers the ASCII characters Python's `str.isspace` accepts, not the other Unicode whitespace characters, because nothing in the resolver's inputs calls for them.
- Text.LowerChar: lower-cases ASCII letters only, not Unicode case folding, because all command words are ASCII.
- The tests compare only the class of the result. The model also fixes the monitor name and the enable or disable direction of a toggle, so the scenario lemmas state more than the tests check.
- How `zonebot.commands` resolves an unregistered id, matches extra words after `help` or `list monitors`, or handles a user missing from a non-empty section is not shown by the tests. The model takes the decisions listed above; the implementation module is not part of this model.
