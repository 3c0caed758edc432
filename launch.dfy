/** Launch assembly (main.py:130-155): the argument template and its ten
    placeholder substitutions, the classpath, and the command line. */
module Launch {
  import opened Schema
  import opened Text
  import opened Layout
  import opened Dependencies

  /** One entry of the `replacing` table: a placeholder and its value. */
  datatype Replacement = Replacement(token: string, value: string)

  /** The literal strings of `arguments.game`, in order; conditional
      objects are dropped. */
  function Literals(game: seq<GameArg>): (texts: seq<string>)
    ensures |texts| <= |game|
    ensures forall t :: t in texts <==> Literal(t) in game
    decreases |game|
  {
    if |game| == 0 then []
    else
      assert game == [game[0]] + game[1..];
      (if game[0].Literal? then [game[0].text] else []) + Literals(game[1..])
  }

  /** The argument template: `minecraftArguments` when the document has it,
      else the space-join of the literal items of `arguments.game`; a
      document with neither raises KeyError. */
  function Template(info: Release): Result<string>
  {
    if info.minecraftArguments.Some? then Success(info.minecraftArguments.value)
    else if info.gameArguments.Some? then Success(Join(" ", Literals(info.gameArguments.value)))
    else Failure(KeyError("arguments"))
  }

  /** The placeholder spelled `${name}`. */
  function Token(name: string): string
  {
    "${" + name + "}"
  }

  /** A name without `$` or `}` spells a placeholder. */
  lemma TokenIsPlaceholder(name: string)
    requires '$' !in name && '}' !in name
    ensures Placeholder(Token(name))
  {
    var t := Token(name);
    forall k | 0 < k < |t| - 1
      ensures t[k] != '$' && t[k] != '}'
    {
      if k >= 2 {
        assert t[k] == name[k - 2];
      }
    }
  }

  /** The names of the placeholders `get_arguments` replaces, in the
      insertion order of its `replacing` table. */
  const TokenNames: seq<string> :=
    [ "auth_player_name", "version_name", "game_directory", "assets_root", "assets_index_name",
      "auth_uuid", "auth_access_token", "user_type", "version_type", "user_properties" ]

  /** The values of the `replacing` table, in the same order: the player
      name, the release id, the game and assets directories, the asset index
      id, fixed offline identity values, and the release type. */
  function TokenValues(info: Release, nickname: string): seq<string>
  {
    [ nickname, info.id, MinecraftPath, AssetsDir, info.assetIndex.id,
      "null", "null", "msa", info.kind, "{}" ]
  }

  /** The `replacing` table: each placeholder paired with its value. Its ten
      keys are pairwise distinct, as the keys of a dict are. */
  function Replacements(info: Release, nickname: string): (table: seq<Replacement>)
    ensures |table| == 10 && NonEmptyTokens(table)
    ensures forall k, l :: 0 <= k < l < |table| ==> table[k].token != table[l].token
  {
    var table := seq(|TokenNames|, k requires 0 <= k < |TokenNames| => Replacement(Token(TokenNames[k]), TokenValues(info, nickname)[k]));
    assert forall k, l :: 0 <= k < l < |table| ==> table[k].token != table[l].token by {
      TokenNamesDistinct();
      forall k, l | 0 <= k < l < |table|
        ensures table[k].token != table[l].token
      {
        TokenInjective(TokenNames[k], TokenNames[l]);
      }
    }
    table
  }

  /** Different names spell different placeholders. */
  lemma TokenInjective(a: string, b: string)
    ensures Token(a) == Token(b) ==> a == b
  {
    if Token(a) == Token(b) {
      assert a == Token(a)[2..|Token(a)| - 1];
    }
  }

  /** The placeholder names are pairwise distinct. */
  lemma TokenNamesDistinct()
    ensures forall k, l :: 0 <= k < l < |TokenNames| ==> TokenNames[k] != TokenNames[l]
  {
  }

  /** No placeholder name has a `$` or a `}`. */
  lemma TokenNamesPlain()
    ensures forall k :: 0 <= k < |TokenNames| ==> '$' !in TokenNames[k] && '}' !in TokenNames[k]
  {
  }

  /** Every key of the table is a placeholder. */
  lemma ReplacementTokens(info: Release, nickname: string)
    ensures forall k :: 0 <= k < |TokenNames| ==> Placeholder(Replacements(info, nickname)[k].token)
  {
    TokenNamesPlain();
    forall k | 0 <= k < |TokenNames|
      ensures Placeholder(Replacements(info, nickname)[k].token)
    {
      TokenIsPlaceholder(TokenNames[k]);
    }
  }

  predicate NonEmptyTokens(table: seq<Replacement>)
  {
    forall k :: 0 <= k < |table| ==> |table[k].token| > 0
  }

  /** The replacements of `table` applied one after the other, each to the
      result of the previous one. */
  function Substitute(s: string, table: seq<Replacement>): string
    requires NonEmptyTokens(table)
    decreases |table|
  {
    if |table| == 0 then s
    else
      var last := table[|table| - 1];
      ReplaceAll(Substitute(s, table[..|table| - 1]), last.token, last.value)
  }

  /** One more replacement extends the substitution by one step. */
  lemma SubstituteSnoc(s: string, table: seq<Replacement>, k: nat)
    requires NonEmptyTokens(table) && k < |table|
    ensures Substitute(s, table[..k + 1]) == ReplaceAll(Substitute(s, table[..k]), table[k].token, table[k].value)
  {
    assert table[..k + 1][..k] == table[..k];
  }

  /** `get_arguments`. */
  method GetArguments(info: Release, nickname: string) returns (args: Result<string>)
    ensures Template(info).Failure? ==> args == Template(info)
    ensures Template(info).Success? ==>
      args == Success(Substitute(Template(info).value, Replacements(info, nickname)))
  {
    var template := Template(info);
    if template.Failure? {
      return template;
    }
    var text := template.value;
    var replacing := Replacements(info, nickname);
    for k := 0 to |replacing|
      invariant text == Substitute(template.value, replacing[..k])
    {
      SubstituteSnoc(template.value, replacing, k);
      text := ReplaceAll(text, replacing[k].token, replacing[k].value);
    }
    assert replacing[..|replacing|] == replacing;
    return Success(text);
  }

  /** After the substitutions, every `$` still opens a placeholder, and none
      of them is one that was substituted, provided that held of the input
      and no value has a `$`. */
  lemma {:induction false} SubstituteClears(s: string, table: seq<Replacement>, done: set<string>)
    requires forall k :: 0 <= k < |table| ==> Placeholder(table[k].token) && NoDollar(table[k].value)
    requires DollarsOpen(s, done)
    ensures NonEmptyTokens(table)
    ensures DollarsOpen(Substitute(s, table), done + set k | 0 <= k < |table| :: table[k].token)
    decreases |table|
  {
    if |table| > 0 {
      var init, last := table[..|table| - 1], table[|table| - 1];
      SubstituteClears(s, init, done);
      var doneInit := done + set k | 0 <= k < |init| :: init[k].token;
      ReplaceClears(Substitute(s, init), last.token, last.value, doneInit);
      assert doneInit + {last.token} == done + set k | 0 <= k < |table| :: table[k].token by {
        forall t | t in done + set k | 0 <= k < |table| :: table[k].token
          ensures t in doneInit + {last.token}
        {
          if t !in done && t != last.token {
            var k :| 0 <= k < |table| && table[k].token == t;
            assert init[k] == table[k];
          }
        }
      }
    }
  }

  /** Placeholder completeness: when every `$` of the template opens a
      placeholder and none of the substituted values has a `$`, the
      arguments contain none of the ten tokens. */
  lemma ArgumentsFreeOfTokens(info: Release, nickname: string)
    requires Template(info).Success? && DollarsOpen(Template(info).value, {})
    requires NoDollar(nickname) && NoDollar(info.id) && NoDollar(info.assetIndex.id) && NoDollar(info.kind)
    ensures forall k :: 0 <= k < 10 ==>
      !Contains(Substitute(Template(info).value, Replacements(info, nickname)), Replacements(info, nickname)[k].token)
  {
    var table := Replacements(info, nickname);
    assert NoDollar(MinecraftPath) && NoDollar(AssetsDir);
    assert NoDollar("null") && NoDollar("msa") && NoDollar("{}");
    ReplacementTokens(info, nickname);
    SubstituteClears(Template(info).value, table, {});
    var done := {} + set k | 0 <= k < |table| :: table[k].token;
    forall k | 0 <= k < 10
      ensures !Contains(Substitute(Template(info).value, table), table[k].token)
    {
      assert table[k].token in done;
      NoDoneOccurs(Substitute(Template(info).value, table), done, table[k].token);
    }
  }

  /** Replacements whose tokens do not occur in the text leave it alone. */
  lemma {:induction false} SubstituteAbsent(s: string, table: seq<Replacement>, i: nat, j: nat, x: string)
    requires NonEmptyTokens(table) && i <= j <= |table|
    requires Substitute(s, table[..i]) == x
    requires forall k :: i <= k < j ==> !Contains(x, table[k].token)
    ensures Substitute(s, table[..j]) == x
    decreases j
  {
    if i < j {
      SubstituteAbsent(s, table, i, j - 1, x);
      SubstituteSnoc(s, table, j - 1);
      ReplaceAllAbsent(x, table[j - 1].token, table[j - 1].value);
    }
  }

  /** Replacements whose tokens are longer than the text leave it alone. */
  lemma SubstituteShorter(s: string, table: seq<Replacement>, i: nat, j: nat, x: string)
    requires NonEmptyTokens(table) && i <= j <= |table|
    requires Substitute(s, table[..i]) == x
    requires forall k :: i <= k < j ==> |x| < |table[k].token|
    ensures Substitute(s, table[..j]) == x
  {
    SubstituteAbsent(s, table, i, j, x);
  }

  /** The tokens after `${auth_player_name}` and `${auth_uuid}` are longer
      than `${auth_uuid}` and `null` respectively. */
  lemma LaterTokensLonger(info: Release, nickname: string)
    ensures forall k :: 1 <= k < 5 ==> |Token("auth_uuid")| < |Replacements(info, nickname)[k].token|
    ensures forall k :: 6 <= k < 10 ==> |"null"| < |Replacements(info, nickname)[k].token|
  {
    assert |Token("auth_uuid")| == 12;
  }

  /** A template that is just `${auth_player_name}` becomes the nickname. */
  lemma PlayerNameStep(info: Release, nickname: string)
    requires info.minecraftArguments == Some(Token("auth_player_name"))
    ensures Substitute(Template(info).value, Replacements(info, nickname)[..1]) == nickname
  {
    var table := Replacements(info, nickname);
    assert table[..0] == [];
    SubstituteSnoc(Template(info).value, table, 0);
    ReplaceAllWhole(Token("auth_player_name"), nickname);
  }

  /** Text that is just `${auth_uuid}` when its turn comes becomes `null`. */
  lemma UuidStep(s: string, info: Release, nickname: string)
    requires Substitute(s, Replacements(info, nickname)[..5]) == Token("auth_uuid")
    ensures Substitute(s, Replacements(info, nickname)[..6]) == "null"
  {
    SubstituteSnoc(s, Replacements(info, nickname), 5);
    ReplaceAllWhole(Token("auth_uuid"), "null");
  }

  /** A template that is just `${auth_player_name}`, with the nickname
      `${auth_uuid}`, still reads `${auth_uuid}` once the first five
      replacements are done. */
  lemma UpToUuid(info: Release)
    requires info.minecraftArguments == Some(Token("auth_player_name"))
    ensures Substitute(Template(info).value, Replacements(info, Token("auth_uuid"))[..5]) == Token("auth_uuid")
  {
    var uuid := Token("auth_uuid");
    PlayerNameStep(info, uuid);
    LaterTokensLonger(info, uuid);
    SubstituteShorter(Template(info).value, Replacements(info, uuid), 1, 5, uuid);
  }

  /** Without the hypothesis on the values, the substitution is not
      faithful to them: the player name is substituted first, so a nickname
      spelled like a later token is itself rewritten, and a player named
      `${auth_uuid}` ends up as `null`. */
  lemma NicknameIsReSubstituted(info: Release)
    requires info.minecraftArguments == Some(Token("auth_player_name"))
    ensures Substitute(Template(info).value, Replacements(info, Token("auth_uuid"))) == "null"
  {
    var uuid := Token("auth_uuid");
    var table := Replacements(info, uuid);
    var t := Template(info).value;
    UpToUuid(info);
    UuidStep(t, info, uuid);
    LaterTokensLonger(info, uuid);
    SubstituteShorter(t, table, 6, 10, "null");
    assert table[..10] == table;
  }

  /** A text made of the second token and `$`-free text, when the first
      token is another placeholder, becomes the second value followed by that
      text after the first two replacements. */
  lemma SecondTokenLeads(s: string, table: seq<Replacement>, rest: string)
    requires NonEmptyTokens(table) && |table| >= 2
    requires Placeholder(table[0].token) && Placeholder(table[1].token) && table[0].token != table[1].token
    requires s == table[1].token + rest && NoDollar(rest)
    ensures Substitute(s, table[..2]) == table[1].value + rest
  {
    var p := table[1].token;
    assert Substitute(s, table[..1]) == s by {
      assert table[..0] == [];
      SubstituteSnoc(s, table, 0);
      OnlyLeadingPlaceholder(p, rest, table[0].token);
      ReplaceAllAbsent(s, table[0].token, table[0].value);
    }
    SubstituteSnoc(s, table, 1);
    assert IsPrefix(p, s) && s[|p|..] == rest;
    NoDollarNoPlaceholder(rest, p);
    ReplaceAllAbsent(rest, p, table[1].value);
  }

  /** The text `${version_name}{auth_player_name}` reads
      `${auth_player_name}` after the first two replacements when the release
      id is `$`: the player name is not yet in it, and the id completes it. */
  lemma IdCompletesToken(info: Release, nickname: string)
    requires info.minecraftArguments == Some(Token("version_name") + "{auth_player_name}")
    requires info.id == "$"
    ensures Substitute(Template(info).value, Replacements(info, nickname)[..2]) == Token("auth_player_name")
  {
    var table := Replacements(info, nickname);
    ReplacementTokens(info, nickname);
    assert NoDollar("{auth_player_name}");
    SecondTokenLeads(Template(info).value, table, "{auth_player_name}");
    assert table[1].value + "{auth_player_name}" == Token("auth_player_name");
  }

  /** `${auth_player_name}` contains none of the tokens replaced after it. */
  lemma LaterTokensAbsent(info: Release, nickname: string)
    ensures forall k :: 1 <= k < 10 ==> !Contains(Token("auth_player_name"), Replacements(info, nickname)[k].token)
  {
    var x, table := Token("auth_player_name"), Replacements(info, nickname);
    ReplacementTokens(info, nickname);
    assert x + "" == x;
    forall k | 1 <= k < 10
      ensures !Contains(x, table[k].token)
    {
      OnlyLeadingPlaceholder(x, "", table[k].token);
    }
  }

  /** Without the hypothesis on the values, a token survives: a release id
      `$` placed before `{auth_player_name}` spells `${auth_player_name}`
      after the player-name replacement has already run, and no later
      replacement touches it. */
  lemma ValueSpellsToken(info: Release, nickname: string)
    requires info.minecraftArguments == Some(Token("version_name") + "{auth_player_name}")
    requires info.id == "$"
    ensures Substitute(Template(info).value, Replacements(info, nickname)) == Token("auth_player_name")
  {
    var table := Replacements(info, nickname);
    IdCompletesToken(info, nickname);
    LaterTokensAbsent(info, nickname);
    SubstituteAbsent(Template(info).value, table, 2, 10, Token("auth_player_name"));
    assert table[..10] == table;
  }

  /** With the legacy form absent, the template splits back on spaces into
      the literal items of `arguments.game`, when there is at least one and
      none contains a space. */
  lemma TemplateListsLiterals(info: Release)
    requires info.minecraftArguments.None? && info.gameArguments.Some?
    requires |Literals(info.gameArguments.value)| >= 1
    requires forall k :: 0 <= k < |Literals(info.gameArguments.value)| ==> ' ' !in Literals(info.gameArguments.value)[k]
    ensures Split(Template(info).value, ' ') == Literals(info.gameArguments.value)
  {
    SplitJoin(Literals(info.gameArguments.value), ' ');
  }

  /** The classpath of `start_version`: the library paths joined by `;`,
      then `;` and the release's jar. */
  function Classpath(entries: seq<string>, id: string): string
  {
    Join(";", entries) + ";" + JarPath(id)
  }

  /** The classpath lists the library paths in order and the jar last; with
      no library at all it starts with an empty entry. */
  lemma ClasspathLists(entries: seq<string>, id: string)
    requires forall k :: 0 <= k < |entries| ==> ';' !in entries[k]
    requires ';' !in id
    ensures Split(Classpath(entries, id), ';') == (if |entries| == 0 then [""] else entries) + [JarPath(id)]
  {
    var jar := JarPath(id);
    assert ';' !in VersionsDir;
    assert ';' !in jar;
    if |entries| == 0 {
      assert Classpath(entries, id) == ";" + jar;
      SplitJoin([jar], ';');
      assert (";" + jar)[1..] == jar;
    } else {
      JoinSnoc(";", entries, jar);
      SplitJoin(entries + [jar], ';');
    }
  }

  /** The fixed parts of the `start_version` command line: the JVM flags
      before the natives directory, between it and the classpath, and after
      the classpath up to the game directory. */
  const JvmHead := "java -Dos.name=\"Windows 10\" -Dos.version=10.0 -Djava.library.path="
  const JvmBrand := " -Dminecraft.launcher.brand=minecraft-launcher -Dminecraft.launcher.version=2.7.12 -cp "
  const JvmTuning :=
    " -XX:HeapDumpPath=MojangTricksIntelDriversForPerformance_javaw.exe_minecraft.exe.heapdump -Xmx2G"
    + " -XX:+UnlockExperimentalVMOptions -XX:+UseG1GC -XX:G1NewSizePercent=20 -XX:G1ReservePercent=20"
    + " -XX:MaxGCPauseMillis=50 -XX:G1HeapRegionSize=32M -Dfml.ignoreInvalidMinecraftCertificates=true"
    + " -Dfml.ignorePatchDiscrepancies=true -Djava.net.preferIPv4Stack=true"
    + " -Dminecraft.applet.TargetDirectory="

  /** The command line of `start_version`. */
  function CommandLine(id: string, classpath: string, mainClass: string, args: string): string
  {
    JvmHead + NativesPath(id) + JvmBrand + classpath + JvmTuning + MinecraftPath + " " + mainClass + " " + args
  }

  /** `start_version` up to the launch: the command it would run, or the
      exception that stops it first (a document without arguments, or a
      natives entry whose classifier is missing during native staging).
      `info` is the cached metadata document of release `id`. */
  method StartVersion(info: Release, id: string, nickname: string, osName: string, arch: string)
    returns (command: Result<string>)
    ensures Template(info).Failure? ==> command == Template(info)
    ensures Template(info).Success? && NativeArchives(info.libraries, osName, arch).error.Some? ==>
      command == Failure(NativeArchives(info.libraries, osName, arch).error.value)
    ensures Template(info).Success? && NativeArchives(info.libraries, osName, arch).error.None? ==>
      command == Success(CommandLine(id, Classpath(ClasspathEntries(info.libraries, osName), id), info.mainClass,
                                     Substitute(Template(info).value, Replacements(info, nickname))))
  {
    var libraries := GetLibraries(info.libraries, osName);
    var mainClass := info.mainClass;
    var args := GetArguments(info, nickname);
    if args.Failure? {
      return args;
    }
    var line := CommandLine(id, Classpath(libraries, id), mainClass, args.value);
    var staging := NativeArchives(info.libraries, osName, arch);
    if staging.error.Some? {
      return Failure(staging.error.value);
    }
    return Success(line);
  }
}
