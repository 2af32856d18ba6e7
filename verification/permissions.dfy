/** The permission model: capability tags, the token list a user is granted
    in the `Permissions` section, and the decision whether a command with a
    given name and tag may run. */
module Permissions {
  import opened Wrappers
  import opened Text

  /** The capability a command declares. */
  datatype Tag = Read | Write

  function TagName(t: Tag): string {
    match t
    case Read => "read"
    case Write => "write"
  }

  /** The token that grants every capability-gated command. */
  const AnyToken: string := "any"

  /** The already-parsed configuration. `permissions` is the `Permissions`
      section when the configuration has one: username to token list. */
  datatype Config = Config(permissions: Option<map<string, string>>)

  /** A normalised permission token: non-empty, trimmed, lower-case, and
      free of the comma that separates tokens. */
  predicate IsToken(t: string) {
    t != [] && Trimmed(t) && NoUpper(t) && ',' !in t
  }

  /** One comma-separated piece, trimmed and lower-cased. */
  function Token(piece: string): string {
    Lower(Trim(piece))
  }

  /** The non-empty tokens of a sequence of pieces. */
  function TokenSet(pieces: seq<string>): set<string>
  {
    if pieces == [] then {}
    else (if Token(pieces[0]) == [] then {} else {Token(pieces[0])}) + TokenSet(pieces[1..])
  }

  /** `t` is in the token set exactly when it is non-empty and some piece
      normalises to it. */
  lemma {:induction false} TokenSetMember(pieces: seq<string>, t: string)
    ensures t in TokenSet(pieces) <==> t != [] && exists k :: 0 <= k < |pieces| && Token(pieces[k]) == t
  {
    if pieces != [] {
      TokenSetMember(pieces[1..], t);
      if t in TokenSet(pieces[1..]) {
        var k :| 0 <= k < |pieces[1..]| && Token(pieces[1..][k]) == t;
        assert Token(pieces[k + 1]) == t;
      }
      if t != [] && exists k :: 0 <= k < |pieces| && Token(pieces[k]) == t {
        var k :| 0 <= k < |pieces| && Token(pieces[k]) == t;
        if k > 0 {
          assert Token(pieces[1..][k - 1]) == t;
        }
      }
    }
  }

  lemma TrimKeepsOut(s: string, c: char)
    requires c !in s
    ensures c !in Trim(s)
  {
    var i, j := TrimBounds(s);
    assert forall k :: 0 <= k < j - i ==> s[i..j][k] == s[i + k];
  }

  lemma LowerKeepsComma(s: string)
    requires ',' !in s
    ensures ',' !in Lower(s)
  {
    forall k | 0 <= k < |s| ensures Lower(s)[k] != ',' {
      assert s[k] != ',';
    }
  }

  lemma TokenIsToken(piece: string)
    requires ',' !in piece && Token(piece) != []
    ensures IsToken(Token(piece))
  {
    TrimKeepsOut(piece, ',');
    LowerKeepsComma(Trim(piece));
    LowerProperties(Trim(piece));
  }

  /** The token set of a comma-separated list: the value is split on
      commas, each piece trimmed and lower-cased, empty pieces ignored. */
  function Tokens(value: string): (r: set<string>)
    ensures forall t :: t in r ==> IsToken(t)
  {
    var pieces := Split(value, ',');
    forall t | t in TokenSet(pieces) ensures IsToken(t) {
      TokenSetMember(pieces, t);
      var k :| 0 <= k < |pieces| && Token(pieces[k]) == t;
      TokenIsToken(pieces[k]);
    }
    TokenSet(pieces)
  }

  lemma {:induction false} TokenSetAppend(x: seq<string>, y: seq<string>)
    ensures TokenSet(x + y) == TokenSet(x) + TokenSet(y)
  {
    if x == [] {
      assert x + y == y;
    } else {
      assert (x + y)[0] == x[0];
      assert (x + y)[1..] == x[1..] + y;
      TokenSetAppend(x[1..], y);
    }
  }

  /** Token lists concatenate: the tokens of `a,b` are the tokens of `a`
      together with those of `b`. */
  lemma TokensAppend(a: string, b: string)
    ensures Tokens(a + [','] + b) == Tokens(a) + Tokens(b)
  {
    SplitAppend(a, b, ',');
    TokenSetAppend(Split(a, ','), Split(b, ','));
  }

  /** A single token, however much whitespace surrounds it and in whatever
      case it was written, stands for exactly its lower-case form. */
  lemma TokensPadded(a: string, t: string, b: string)
    requires AllSpace(a) && AllSpace(b)
    requires t != [] && Trimmed(t) && ',' !in t
    ensures Tokens(a + t + b) == {Lower(t)}
  {
    var s := a + t + b;
    NoCommaInPadded(a, t, b);
    SplitNoSep(s, ',');
    TrimPadded(a, t, b);
    LowerProperties(t);
    assert Trim(s) == t;
    assert Token(s) == Lower(t);
    assert Tokens(s) == TokenSet([s]);
    assert [s][1..] == [];
    assert TokenSet([s]) == {Token(s)} + TokenSet([]);
  }

  lemma NoCommaInPadded(a: string, t: string, b: string)
    requires AllSpace(a) && AllSpace(b) && ',' !in t
    ensures ',' !in a + t + b
  {
    assert ',' !in a by {
      forall k | 0 <= k < |a| ensures a[k] != ',' {
        assert IsSpace(a[k]);
      }
    }
    assert ',' !in b by {
      forall k | 0 <= k < |b| ensures b[k] != ',' {
        assert IsSpace(b[k]);
      }
    }
  }

  /** The access a user has under a configuration. */
  datatype Access =
    | Unrestricted
    | Granted(tokens: set<string>)

  /** Which access `user` has under `config`:
      - no configuration, or no `Permissions` section: unrestricted;
      - a `Permissions` section with no entries: everyone may read;
      - otherwise exactly the tokens listed for the user, none when the
        user is anonymous or not listed. */
  function AccessOf(config: Option<Config>, user: Option<string>): (a: Access)
    ensures a.Unrestricted? <==> config.None? || config.value.permissions.None?
    ensures a.Granted? ==> forall t :: t in a.tokens ==> IsToken(t)
    ensures (config.Some? && config.value.permissions.Some? && |config.value.permissions.value| == 0)
            ==> a == Granted({TagName(Read)})
    ensures (config.Some? && config.value.permissions.Some? && user.Some?
             && user.value in config.value.permissions.value)
            ==> a == Granted(Tokens(config.value.permissions.value[user.value]))
    ensures (config.Some? && config.value.permissions.Some? && |config.value.permissions.value| > 0
             && (user.None? || user.value !in config.value.permissions.value))
            ==> a == Granted({})
  {
    match config
    case None => Unrestricted
    case Some(Config(None)) => Unrestricted
    case Some(Config(Some(section))) =>
      if |section| == 0 then
        assert IsToken(TagName(Read)) by { assert "read"[0] == 'r'; }
        Granted({TagName(Read)})
      else if user.Some? && user.value in section then Granted(Tokens(section[user.value]))
      else Granted({})
  }

  /** A command called `name` with capability `tag` may run under `a` when
      access is unrestricted or one of the tokens is `any`, the command's
      own name, or its tag. */
  predicate Allows(a: Access, name: string, tag: Tag) {
    match a
    case Unrestricted => true
    case Granted(ts) => AnyToken in ts || name in ts || TagName(tag) in ts
  }

  /** Granting more tokens never withdraws a permission. */
  lemma AllowsMonotone(ts: set<string>, us: set<string>, name: string, tag: Tag)
    requires ts <= us
    ensures Allows(Granted(ts), name, tag) ==> Allows(Granted(us), name, tag)
  {
  }
}
