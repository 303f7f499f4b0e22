/**
 * GoogleAuthManager of src/gdocs_mcp/auth.py: where the credential files are
 * looked for, and the load / refresh / authenticate / save sequence that
 * produces the OAuth credential.  Everything outside the manager is an input:
 * the file system view, the result of parsing the token file, of refreshing,
 * and of the interactive OAuth flow.
 */
module Auth {
  import opened Wrappers
  import opened Paths
  import Strings

  /** The scopes used when the configuration names none. */
  const DEFAULT_SCOPES: seq<string> := ["https://www.googleapis.com/auth/drive.readonly"]

  /**
   * A google.oauth2 Credentials object as the manager sees it: an opaque token
   * and the three attributes it tests.  Such an object is always truthy.
   */
  datatype Credential = Credential(token: string, expired: bool, valid: bool, hasRefreshToken: bool)

  /** A value of the JSON configuration dictionary. */
  datatype ConfigValue = Str(s: string) | StrList(items: seq<string>) | OtherValue

  type Config = map<string, ConfigValue>

  /** `Path(config.get("config_path", ""))` raises unless the value is a string. */
  predicate ConfigPathIsString(config: Config)
  {
    "config_path" in config ==> config["config_path"].Str?
  }

  function ConfigPathString(config: Config): string
    requires ConfigPathIsString(config)
  {
    if "config_path" in config then config["config_path"].s else ""
  }

  /** `config.get("scopes", [...drive.readonly])`: any value under "scopes" is taken as it is. */
  function Scopes(config: Config): ConfigValue
  {
    if "scopes" in config then config["scopes"] else StrList(DEFAULT_SCOPES)
  }

  // ---------------------------------------------------------------------------
  // Path resolution done by the constructor.
  // ---------------------------------------------------------------------------

  /** `Path(__file__).parent.parent.parent`: the checkout the package sits in. */
  function PackageRoot(fs: FileSystem): Path
  {
    Parent(Parent(Parent(fs.moduleFile)))
  }

  /** The project root: derived from an existing config file, else the package's checkout. */
  function ProjectRoot(config: Config, fs: FileSystem): (root: Path)
    requires ConfigPathIsString(config)
  {
    var configPath := Parse(ConfigPathString(config));
    if Exists(fs, configPath) then
      if "config" in Parts(configPath) && EndsWith(Name(configPath), ".json") then Parent(Parent(configPath))
      else Parent(configPath)
    else PackageRoot(fs)
  }

  function PrimaryCredentialsPath(root: Path): Path
  {
    Child(Child(root, "config"), "credentials.json")
  }

  function PrimaryTokenPath(root: Path): Path
  {
    Child(Child(root, "config"), "token.json")
  }

  /** The four places tried, in order, when the primary credentials file is missing. */
  function AlternativeCredentialsPaths(fs: FileSystem): seq<Path>
  {
    [ Path(false, ["config", "credentials.json"]),
      Child(Child(Child(fs.home, ".config"), "gdocs-mcp"), "credentials.json"),
      Child(Child(PackageRoot(fs), "config"), "credentials.json"),
      Child(Child(fs.cwd, "config"), "credentials.json") ]
  }

  /** The first path of `paths` that exists. */
  function FirstExisting(fs: FileSystem, paths: seq<Path>): Option<Path>
  {
    if paths == [] then None
    else if Exists(fs, paths[0]) then Some(paths[0])
    else FirstExisting(fs, paths[1..])
  }

  /** FirstExisting finds nothing exactly when no path exists, and otherwise the earliest existing one. */
  lemma {:induction false} FirstExistingIsFirst(fs: FileSystem, paths: seq<Path>)
    ensures FirstExisting(fs, paths).None? <==> forall j :: 0 <= j < |paths| ==> !Exists(fs, paths[j])
    ensures forall k :: (0 <= k < |paths| && Exists(fs, paths[k]) &&
      (forall j :: 0 <= j < k ==> !Exists(fs, paths[j]))) ==> FirstExisting(fs, paths) == Some(paths[k])
  {
    if paths != [] {
      FirstExistingIsFirst(fs, paths[1..]);
      assert forall j :: 1 <= j < |paths| ==> paths[j] == paths[1..][j - 1];
      forall k | 0 <= k < |paths| && Exists(fs, paths[k]) && (forall j :: 0 <= j < k ==> !Exists(fs, paths[j]))
        ensures FirstExisting(fs, paths) == Some(paths[k])
      {
        if k > 0 {
          assert forall j :: 0 <= j < k - 1 ==> !Exists(fs, paths[1..][j]) by {
            forall j | 0 <= j < k - 1 ensures !Exists(fs, paths[1..][j]) {
              assert paths[1..][j] == paths[j + 1];
            }
          }
        }
      }
    }
  }

  /** The credentials path: the primary one if it exists, else the first existing alternative, else the primary one. */
  function CredentialsPath(root: Path, fs: FileSystem): Path
  {
    var primary := PrimaryCredentialsPath(root);
    if Exists(fs, primary) then primary
    else
      match FirstExisting(fs, AlternativeCredentialsPaths(fs))
      case Some(p) => p
      case None => primary
  }

  /** The token path: next to the credentials file only when the primary token is missing and the credentials moved. */
  function TokenPath(root: Path, credentialsPath: Path, fs: FileSystem): Path
  {
    if !Exists(fs, PrimaryTokenPath(root)) && credentialsPath != PrimaryCredentialsPath(root) then
      Child(Parent(credentialsPath), "token.json")
    else PrimaryTokenPath(root)
  }

  // ---------------------------------------------------------------------------
  // The credential life cycle as a function of the outside events.
  // ---------------------------------------------------------------------------

  /** An action of the manager with an effect outside it. */
  datatype AuthStep =
    | ReadToken                      // read and parse the token file
    | Refresh                        // Credentials.refresh over the network
    | WriteToken(saved: Credential)  // to_json and write to the token path (write errors are swallowed)
    | RunFlow                        // the interactive InstalledAppFlow

  /** What the outside world answers during one load: token parsing, refresh and OAuth flow. */
  datatype LoadOutcomes = LoadOutcomes(
    token: Attempt<Credential>,
    refresh: Attempt<Credential>,
    flow: Attempt<Credential>)

  /** The credentials left behind by an operation and the steps it took. */
  datatype Run = Run(credentials: Option<Credential>, steps: seq<AuthStep>)

  /** _save_token: writes only when credentials are present. */
  function SaveTokenSteps(credentials: Option<Credential>): seq<AuthStep>
  {
    if credentials.Some? then [WriteToken(credentials.value)] else []
  }

  /** _authenticate */
  function AuthenticateRun(credentials: Option<Credential>, credentialsFileExists: bool, flow: Attempt<Credential>): Run
  {
    if !credentialsFileExists then Run(credentials, [])
    else
      match flow
      case Raised => Run(None, [RunFlow])
      case Returned(c) => Run(Some(c), [RunFlow] + SaveTokenSteps(Some(c)))
  }

  /** The tail of _load_credentials: authenticate when the credential is absent or not valid. */
  function ValidityCheckRun(credentials: Option<Credential>, credentialsFileExists: bool, flow: Attempt<Credential>): Run
  {
    if credentials.None? || !credentials.value.valid then AuthenticateRun(credentials, credentialsFileExists, flow)
    else Run(credentials, [])
  }

  /** _load_credentials, with any exception turning the credentials into None. */
  function LoadRun(credentials: Option<Credential>, tokenFileExists: bool, credentialsFileExists: bool,
                   outcomes: LoadOutcomes): Run
  {
    if !tokenFileExists then ValidityCheckRun(credentials, credentialsFileExists, outcomes.flow)
    else
      match outcomes.token
      case Raised => Run(None, [ReadToken])
      case Returned(loaded) =>
        if loaded.expired && loaded.hasRefreshToken then
          match outcomes.refresh
          case Raised => Run(None, [ReadToken, Refresh])
          case Returned(renewed) =>
            var check := ValidityCheckRun(Some(renewed), credentialsFileExists, outcomes.flow);
            Run(check.credentials, [ReadToken, Refresh, WriteToken(renewed)] + check.steps)
        else
          var check := ValidityCheckRun(Some(loaded), credentialsFileExists, outcomes.flow);
          Run(check.credentials, [ReadToken] + check.steps)
  }

  /** get_credentials */
  function GetCredentialsRun(credentials: Option<Credential>, credentialsFileExists: bool, flow: Attempt<Credential>): Run
  {
    if credentials.None? then AuthenticateRun(credentials, credentialsFileExists, flow)
    else Run(credentials, [])
  }

  /** Authenticating never refreshes, reads no token, and runs the OAuth flow only when the credentials file exists. */
  lemma AuthenticateSteps(credentials: Option<Credential>, credentialsFileExists: bool, flow: Attempt<Credential>)
    ensures var run := AuthenticateRun(credentials, credentialsFileExists, flow);
      multiset(run.steps)[Refresh] == 0 && ReadToken !in run.steps &&
      (RunFlow in run.steps <==> credentialsFileExists) &&
      multiset(run.steps)[RunFlow] <= 1 &&
      (!credentialsFileExists ==> run == Run(credentials, []))
  {
    var run := AuthenticateRun(credentials, credentialsFileExists, flow);
    if credentialsFileExists && flow.Returned? {
      assert run.steps == [RunFlow, WriteToken(flow.value)];
      assert run.steps[1..] == [WriteToken(flow.value)];
    }
  }

  /**
   * When the credentials file exists, the flow's credential replaces the old
   * one and is written, and a raising flow leaves no credential and no write.
   */
  lemma AuthenticateOutcome(credentials: Option<Credential>, credentialsFileExists: bool, flow: Attempt<Credential>)
    requires credentialsFileExists
    ensures var run := AuthenticateRun(credentials, credentialsFileExists, flow);
      run.credentials == (if flow.Raised? then None else Some(flow.value)) &&
      run.steps == [RunFlow] + (if flow.Raised? then [] else [WriteToken(flow.value)])
  {
  }

  /**
   * _load_credentials refreshes at most once, and exactly when a token was
   * read that is expired and carries a refresh token.
   */
  lemma LoadRefreshesOnce(credentials: Option<Credential>, tokenFileExists: bool, credentialsFileExists: bool,
                          outcomes: LoadOutcomes)
    ensures multiset(LoadRun(credentials, tokenFileExists, credentialsFileExists, outcomes).steps)[Refresh] ==
      (if tokenFileExists && outcomes.token.Returned? && outcomes.token.value.expired &&
          outcomes.token.value.hasRefreshToken then 1 else 0)
  {
    var run := LoadRun(credentials, tokenFileExists, credentialsFileExists, outcomes);
    if !tokenFileExists {
      AuthenticateSteps(credentials, credentialsFileExists, outcomes.flow);
    } else if outcomes.token.Returned? {
      var loaded := outcomes.token.value;
      if loaded.expired && loaded.hasRefreshToken {
        if outcomes.refresh.Returned? {
          var renewed := outcomes.refresh.value;
          var check := ValidityCheckRun(Some(renewed), credentialsFileExists, outcomes.flow);
          AuthenticateSteps(Some(renewed), credentialsFileExists, outcomes.flow);
          assert multiset(check.steps)[Refresh] == 0;
          assert run.steps == [ReadToken, Refresh, WriteToken(renewed)] + check.steps;
          assert multiset([ReadToken, Refresh, WriteToken(renewed)])[Refresh] == 1;
        }
      } else {
        var check := ValidityCheckRun(Some(loaded), credentialsFileExists, outcomes.flow);
        AuthenticateSteps(Some(loaded), credentialsFileExists, outcomes.flow);
        assert multiset(check.steps)[Refresh] == 0;
        assert run.steps == [ReadToken] + check.steps;
      }
    }
  }

  /**
   * A failure while reading or refreshing the token leaves no credential and
   * starts no OAuth flow.
   */
  lemma LoadFailuresAndFlow(credentials: Option<Credential>, tokenFileExists: bool, credentialsFileExists: bool,
                            outcomes: LoadOutcomes)
    ensures var run := LoadRun(credentials, tokenFileExists, credentialsFileExists, outcomes);
      tokenFileExists && outcomes.token.Raised? ==> run.credentials.None? && RunFlow !in run.steps
    ensures var run := LoadRun(credentials, tokenFileExists, credentialsFileExists, outcomes);
      tokenFileExists && outcomes.token.Returned? && outcomes.token.value.expired &&
      outcomes.token.value.hasRefreshToken && outcomes.refresh.Raised? ==>
        run.credentials.None? && RunFlow !in run.steps
  {
    var run := LoadRun(credentials, tokenFileExists, credentialsFileExists, outcomes);
    if tokenFileExists && outcomes.token.Raised? {
      assert run == Run(None, [ReadToken]);
    } else if tokenFileExists && outcomes.token.value.expired && outcomes.token.value.hasRefreshToken &&
              outcomes.refresh.Raised? {
      assert run == Run(None, [ReadToken, Refresh]);
    }
  }

  /** The validity check runs the OAuth flow at most once, and only when the credentials file exists. */
  lemma ValidityCheckFlow(credentials: Option<Credential>, credentialsFileExists: bool, flow: Attempt<Credential>)
    ensures var check := ValidityCheckRun(credentials, credentialsFileExists, flow);
      (RunFlow in check.steps ==> credentialsFileExists) && multiset(check.steps)[RunFlow] <= 1
  {
    if credentials.None? || !credentials.value.valid {
      AuthenticateSteps(credentials, credentialsFileExists, flow);
    }
  }

  /** A load runs the OAuth flow at most once, and only when the credentials file exists. */
  lemma LoadFlowAtMostOnce(credentials: Option<Credential>, tokenFileExists: bool, credentialsFileExists: bool,
                           outcomes: LoadOutcomes)
    ensures var run := LoadRun(credentials, tokenFileExists, credentialsFileExists, outcomes);
      (RunFlow in run.steps ==> credentialsFileExists) && multiset(run.steps)[RunFlow] <= 1
  {
    var run := LoadRun(credentials, tokenFileExists, credentialsFileExists, outcomes);
    var stage := AfterTokenStage(credentials, tokenFileExists, outcomes);
    var check := ValidityCheckRun(stage, credentialsFileExists, outcomes.flow);
    ValidityCheckFlow(stage, credentialsFileExists, outcomes.flow);
    if !tokenFileExists {
      assert run == check;
    } else if outcomes.token.Raised? {
      assert run.steps == [ReadToken];
    } else if outcomes.token.value.expired && outcomes.token.value.hasRefreshToken {
      if outcomes.refresh.Returned? {
        assert run.steps == [ReadToken, Refresh, WriteToken(outcomes.refresh.value)] + check.steps;
        PrefixAddsNoFlow([ReadToken, Refresh, WriteToken(outcomes.refresh.value)], check.steps);
      } else {
        assert run.steps == [ReadToken, Refresh];
      }
    } else {
      assert run.steps == [ReadToken] + check.steps;
      PrefixAddsNoFlow([ReadToken], check.steps);
    }
  }




  /** Steps without a flow in front of `rest` add no flow to it. */
  lemma PrefixAddsNoFlow(prefix: seq<AuthStep>, rest: seq<AuthStep>)
    requires RunFlow !in prefix
    ensures (RunFlow in prefix + rest <==> RunFlow in rest) &&
      multiset(prefix + rest)[RunFlow] == multiset(rest)[RunFlow]
  {
    assert multiset(prefix + rest) == multiset(prefix) + multiset(rest);
  }

  /** When a load runs the OAuth flow, the flow decides the credential: its result, or None when it raises. */
  lemma LoadFlowDecides(credentials: Option<Credential>, tokenFileExists: bool, credentialsFileExists: bool,
                        outcomes: LoadOutcomes)
    ensures var run := LoadRun(credentials, tokenFileExists, credentialsFileExists, outcomes);
      RunFlow in run.steps ==>
        run.credentials == (if outcomes.flow.Raised? then None else Some(outcomes.flow.value))
  {
    var run := LoadRun(credentials, tokenFileExists, credentialsFileExists, outcomes);
    if tokenFileExists && outcomes.token.Returned? {
      var loaded := outcomes.token.value;
      if loaded.expired && loaded.hasRefreshToken && outcomes.refresh.Returned? {
        var renewed := outcomes.refresh.value;
        var check := ValidityCheckRun(Some(renewed), credentialsFileExists, outcomes.flow);
        AuthenticateSteps(Some(renewed), credentialsFileExists, outcomes.flow);
        if credentialsFileExists {
          AuthenticateOutcome(Some(renewed), credentialsFileExists, outcomes.flow);
        }
        assert run.steps == [ReadToken, Refresh, WriteToken(renewed)] + check.steps;
        assert RunFlow in run.steps ==> RunFlow in check.steps;
      } else if !(loaded.expired && loaded.hasRefreshToken) {
        var check := ValidityCheckRun(Some(loaded), credentialsFileExists, outcomes.flow);
        AuthenticateSteps(Some(loaded), credentialsFileExists, outcomes.flow);
        if credentialsFileExists {
          AuthenticateOutcome(Some(loaded), credentialsFileExists, outcomes.flow);
        }
        assert run.steps == [ReadToken] + check.steps;
        assert RunFlow in run.steps ==> RunFlow in check.steps;
      }
    } else if !tokenFileExists {
      AuthenticateSteps(credentials, credentialsFileExists, outcomes.flow);
    }
  }

  /** The credential the token stage of _load_credentials leaves for the validity check, when it raises nothing. */
  function AfterTokenStage(credentials: Option<Credential>, tokenFileExists: bool, outcomes: LoadOutcomes): Option<Credential>
  {
    if !tokenFileExists then credentials
    else if outcomes.token.Returned? && outcomes.token.value.expired && outcomes.token.value.hasRefreshToken then
      (if outcomes.refresh.Returned? then Some(outcomes.refresh.value) else None)
    else if outcomes.token.Returned? then Some(outcomes.token.value)
    else None
  }

  /**
   * The OAuth flow runs exactly when the token stage raised nothing, left a
   * credential that is absent or not valid, and the credentials file exists;
   * when it raised nothing and the flow does not run, the credential from the
   * token stage is kept: a valid loaded or refreshed one, or, without the
   * credentials file, whatever the token stage left.
   */
  lemma LoadAuthenticatesIffInvalid(credentials: Option<Credential>, tokenFileExists: bool, credentialsFileExists: bool,
                                    outcomes: LoadOutcomes)
    ensures var run := LoadRun(credentials, tokenFileExists, credentialsFileExists, outcomes);
      var raised := tokenFileExists && (outcomes.token.Raised? ||
        (outcomes.token.value.expired && outcomes.token.value.hasRefreshToken && outcomes.refresh.Raised?));
      var loaded := AfterTokenStage(credentials, tokenFileExists, outcomes);
      (RunFlow in run.steps <==> !raised && (loaded.None? || !loaded.value.valid) && credentialsFileExists) &&
      (!raised && !credentialsFileExists ==> run.credentials == loaded) &&
      (!raised && RunFlow !in run.steps ==> run.credentials == loaded)
  {
    var run := LoadRun(credentials, tokenFileExists, credentialsFileExists, outcomes);
    if tokenFileExists && outcomes.token.Returned? {
      var loaded := outcomes.token.value;
      if loaded.expired && loaded.hasRefreshToken && outcomes.refresh.Returned? {
        var renewed := outcomes.refresh.value;
        var check := ValidityCheckRun(Some(renewed), credentialsFileExists, outcomes.flow);
        AuthenticateSteps(Some(renewed), credentialsFileExists, outcomes.flow);
        assert run.steps == [ReadToken, Refresh, WriteToken(renewed)] + check.steps;
      } else if !(loaded.expired && loaded.hasRefreshToken) {
        var check := ValidityCheckRun(Some(loaded), credentialsFileExists, outcomes.flow);
        AuthenticateSteps(Some(loaded), credentialsFileExists, outcomes.flow);
        assert run.steps == [ReadToken] + check.steps;
      }
    } else if !tokenFileExists {
      AuthenticateSteps(credentials, credentialsFileExists, outcomes.flow);
    }
  }

  /**
   * A valid credential from the token stage (loaded as it is, or refreshed)
   * is kept when nothing raised: the user is not asked to authorise again.
   */
  lemma LoadKeepsValidCredential(credentials: Option<Credential>, tokenFileExists: bool, credentialsFileExists: bool,
                                 outcomes: LoadOutcomes)
    ensures var run := LoadRun(credentials, tokenFileExists, credentialsFileExists, outcomes);
      var raised := tokenFileExists && (outcomes.token.Raised? ||
        (outcomes.token.value.expired && outcomes.token.value.hasRefreshToken && outcomes.refresh.Raised?));
      var loaded := AfterTokenStage(credentials, tokenFileExists, outcomes);
      !raised && loaded.Some? && loaded.value.valid ==> run.credentials == loaded && RunFlow !in run.steps
  {
    LoadAuthenticatesIffInvalid(credentials, tokenFileExists, credentialsFileExists, outcomes);
  }

  /**
   * The constructor's paths and scopes depend on no configuration key but
   * "config_path" and "scopes"; without "scopes" the read-only Drive scope is used.
   */
  lemma ConstructorReadsTwoKeys(config: Config, other: Config, fs: FileSystem)
    requires ConfigPathIsString(config) && ConfigPathIsString(other)
    requires ("config_path" in config <==> "config_path" in other) && ("scopes" in config <==> "scopes" in other)
    requires "config_path" in config ==> config["config_path"] == other["config_path"]
    requires "scopes" in config ==> config["scopes"] == other["scopes"]
    ensures ProjectRoot(config, fs) == ProjectRoot(other, fs)
    ensures Scopes(config) == Scopes(other)
    ensures "scopes" !in config ==> Scopes(config) == StrList(["https://www.googleapis.com/auth/drive.readonly"])
  {
  }

  /**
   * After loading, a credential that is present but not valid is there only
   * because no credentials file exists or because the OAuth flow returned it.
   */
  lemma LoadLeavesValidCredential(credentials: Option<Credential>, tokenFileExists: bool, credentialsFileExists: bool,
                                  outcomes: LoadOutcomes)
    ensures var run := LoadRun(credentials, tokenFileExists, credentialsFileExists, outcomes);
      run.credentials.Some? && !run.credentials.value.valid ==> !credentialsFileExists || RunFlow in run.steps
  {
  }

  /**
   * Every token write comes right after a refresh or an OAuth flow; and,
   * conversely, a successful refresh is written before the validity check,
   * and a flow that returns is followed by the write of its credential.
   */
  lemma LoadWritesAfterObtaining(credentials: Option<Credential>, tokenFileExists: bool, credentialsFileExists: bool,
                                 outcomes: LoadOutcomes)
    ensures var steps := LoadRun(credentials, tokenFileExists, credentialsFileExists, outcomes).steps;
      forall i :: 0 <= i < |steps| && steps[i].WriteToken? ==> 0 < i && steps[i - 1] in {Refresh, RunFlow}
    ensures var steps := LoadRun(credentials, tokenFileExists, credentialsFileExists, outcomes).steps;
      tokenFileExists && outcomes.token.Returned? && outcomes.token.value.expired &&
      outcomes.token.value.hasRefreshToken && outcomes.refresh.Returned? ==>
        3 <= |steps| && steps[..3] == [ReadToken, Refresh, WriteToken(outcomes.refresh.value)]
    ensures var steps := LoadRun(credentials, tokenFileExists, credentialsFileExists, outcomes).steps;
      forall i :: 0 <= i < |steps| && steps[i] == RunFlow && outcomes.flow.Returned? ==>
        i + 1 < |steps| && steps[i + 1] == WriteToken(outcomes.flow.value)
  {
  }

  /**
   * get_credentials never refreshes or reads the token, and keeps a present
   * credential untouched; an absent one is whatever authenticating yields,
   * which with a credentials file is the flow's result, or None when it raises.
   */
  lemma GetCredentialsSteps(credentials: Option<Credential>, credentialsFileExists: bool, flow: Attempt<Credential>)
    ensures var run := GetCredentialsRun(credentials, credentialsFileExists, flow);
      multiset(run.steps)[Refresh] == 0 && ReadToken !in run.steps &&
      (credentials.Some? ==> run == Run(credentials, [])) &&
      (credentials.None? && credentialsFileExists ==> RunFlow in run.steps)
    ensures credentials.None? ==>
      GetCredentialsRun(credentials, credentialsFileExists, flow) == AuthenticateRun(None, credentialsFileExists, flow)
    ensures credentials.None? && credentialsFileExists ==>
      GetCredentialsRun(credentials, credentialsFileExists, flow).credentials ==
        (if flow.Raised? then None else Some(flow.value))
    ensures credentials.None? && !credentialsFileExists ==>
      GetCredentialsRun(credentials, credentialsFileExists, flow) == Run(None, [])
  {
    AuthenticateSteps(credentials, credentialsFileExists, flow);
    if credentials.None? && credentialsFileExists {
      AuthenticateOutcome(credentials, credentialsFileExists, flow);
    }
  }

  // ---------------------------------------------------------------------------
  // Properties of the path resolution.
  // ---------------------------------------------------------------------------

  /**
   * The credentials path is the primary path when that exists; otherwise the
   * first existing alternative, or the primary path again when none exists;
   * a path other than the primary one always exists.
   */
  lemma CredentialsPathChoice(root: Path, fs: FileSystem)
    ensures var p := CredentialsPath(root, fs);
      (Exists(fs, PrimaryCredentialsPath(root)) ==> p == PrimaryCredentialsPath(root)) &&
      (p != PrimaryCredentialsPath(root) ==> p in AlternativeCredentialsPaths(fs) && Exists(fs, p)) &&
      (p != PrimaryCredentialsPath(root) ==>
        exists k :: 0 <= k < 4 && p == AlternativeCredentialsPaths(fs)[k] &&
          forall i :: 0 <= i < k ==> !Exists(fs, AlternativeCredentialsPaths(fs)[i]))
    ensures var p := CredentialsPath(root, fs);
      var alternatives := AlternativeCredentialsPaths(fs);
      !Exists(fs, PrimaryCredentialsPath(root)) ==>
        (forall k :: (0 <= k < 4 && Exists(fs, alternatives[k]) &&
                      (forall i :: 0 <= i < k ==> !Exists(fs, alternatives[i]))) ==> p == alternatives[k]) &&
        ((forall k :: 0 <= k < 4 ==> !Exists(fs, alternatives[k])) ==> p == PrimaryCredentialsPath(root))
  {
    var alternatives := AlternativeCredentialsPaths(fs);
    FirstExistingIsFirst(fs, alternatives);
    FirstExistingFound(fs, alternatives);
  }

  /** The path FirstExisting returns is one of the paths, exists, and has no existing path before it. */
  lemma {:induction false} FirstExistingFound(fs: FileSystem, paths: seq<Path>)
    ensures FirstExisting(fs, paths).Some? ==>
      exists k :: 0 <= k < |paths| && paths[k] == FirstExisting(fs, paths).value && Exists(fs, paths[k]) &&
        forall i :: 0 <= i < k ==> !Exists(fs, paths[i])
  {
    if paths != [] && !Exists(fs, paths[0]) {
      FirstExistingFound(fs, paths[1..]);
      if FirstExisting(fs, paths).Some? {
        var k :| 0 <= k < |paths[1..]| && paths[1..][k] == FirstExisting(fs, paths).value && Exists(fs, paths[1..][k]) &&
          forall i :: 0 <= i < k ==> !Exists(fs, paths[1..][i]);
        assert paths[k + 1] == paths[1..][k];
        assert forall i :: 1 <= i < k + 1 ==> paths[i] == paths[1..][i - 1];
      }
    } else if paths != [] {
      assert paths[0] == FirstExisting(fs, paths).value;
    }
  }

  /**
   * With an absolute working directory the first and the fourth alternative
   * name the same file, so the fourth is never the one chosen.
   */
  lemma FourthAlternativeShadowed(fs: FileSystem)
    requires fs.cwd.absolute
    ensures var alternatives := AlternativeCredentialsPaths(fs);
      (Exists(fs, alternatives[0]) <==> Exists(fs, alternatives[3])) &&
      (FirstExisting(fs, alternatives).Some? ==> FirstExisting(fs, alternatives).value in alternatives[..3])
  {
    var alternatives := AlternativeCredentialsPaths(fs);
    assert alternatives[3].segments == fs.cwd.segments + ["config", "credentials.json"];
    assert Resolve(fs.cwd, alternatives[0]) == alternatives[3];
    FirstExistingFound(fs, alternatives);
    if FirstExisting(fs, alternatives).Some? {
      var k :| 0 <= k < 4 && alternatives[k] == FirstExisting(fs, alternatives).value &&
        Exists(fs, alternatives[k]) && forall i :: 0 <= i < k ==> !Exists(fs, alternatives[i]);
      assert k < 3;
      assert alternatives[..3][k] == alternatives[k];
    }
  }

  /**
   * The token path is the primary one when that exists or the credentials
   * did not move; otherwise it is "token.json" beside the credentials file.
   */
  lemma TokenPathChoice(root: Path, credentialsPath: Path, fs: FileSystem)
    ensures var t := TokenPath(root, credentialsPath, fs);
      (Exists(fs, PrimaryTokenPath(root)) ==> t == PrimaryTokenPath(root)) &&
      (credentialsPath == PrimaryCredentialsPath(root) ==> t == PrimaryTokenPath(root)) &&
      (t != PrimaryTokenPath(root) ==> Parent(t) == Parent(credentialsPath) && Name(t) == "token.json")
    ensures !Exists(fs, PrimaryTokenPath(root)) && credentialsPath != PrimaryCredentialsPath(root) ==>
      var t := TokenPath(root, credentialsPath, fs);
      Parent(t) == Parent(credentialsPath) && Name(t) == "token.json" &&
      t.absolute == credentialsPath.absolute && |t.segments| == |Parent(credentialsPath).segments| + 1
  {
  }

  /**
   * The project root: the package's checkout when the configuration path
   * does not exist; otherwise a directory above the configuration path, two
   * levels when "config" is one of its parts and its name ends in ".json",
   * one level otherwise.
   */
  lemma ProjectRootChoice(config: Config, fs: FileSystem)
    requires ConfigPathIsString(config)
    ensures var c := Parse(ConfigPathString(config));
      var root := ProjectRoot(config, fs);
      (!Exists(fs, c) ==> root == PackageRoot(fs)) &&
      (Exists(fs, c) ==>
        var up := if "config" in c.segments && EndsWith(Name(c), ".json") then 2 else 1;
        root.absolute == c.absolute &&
        root.segments == c.segments[..if |c.segments| >= up then |c.segments| - up else 0])
  {
    var c := Parse(ConfigPathString(config));
    assert "config" in Parts(c) <==> "config" in c.segments by {
      assert "config" != "/";
      assert Parts(c) == (if c.absolute then ["/"] else []) + c.segments;
    }
    if Exists(fs, c) && |c.segments| >= 2 {
      assert c.segments[..|c.segments| - 1][..|c.segments| - 2] == c.segments[..|c.segments| - 2];
    }
  }

  /**
   * Without "config_path" the configuration path is `Path("")`, the current
   * directory, which exists whenever the working directory does: the root is
   * then "." rather than the package's checkout.
   */
  lemma ProjectRootWithoutConfigPath(config: Config, fs: FileSystem)
    requires "config_path" !in config && fs.cwd.absolute && fs.cwd in fs.existing
    ensures ProjectRoot(config, fs) == Path(false, [])
  {
    assert Strings.Split("", '/') == [""];
    assert Parse("") == Path(false, []);
    assert Resolve(fs.cwd, Path(false, [])) == fs.cwd;
  }

  /**
   * An existing `.json` file with a "config" component anywhere on its path
   * puts the root two levels up: the project above `config/` when the file
   * sits directly inside it, but a directory inside `config/` otherwise.
   */
  lemma ProjectRootFromConfigFile(config: Config, fs: FileSystem, prefix: seq<string>, rest: seq<string>, name: string)
    requires ConfigPathIsString(config)
    requires Parse(ConfigPathString(config)).segments == prefix + ["config"] + rest + [name]
    requires EndsWith(name, ".json") && Exists(fs, Parse(ConfigPathString(config)))
    ensures rest == [] ==> ProjectRoot(config, fs) == Path(Parse(ConfigPathString(config)).absolute, prefix)
    ensures rest != [] ==>
      ProjectRoot(config, fs) == Path(Parse(ConfigPathString(config)).absolute, prefix + ["config"] + rest[..|rest| - 1])
  {
    var c := Parse(ConfigPathString(config));
    var s := prefix + ["config"] + rest;
    assert c.segments == s + [name];
    assert s[|prefix|] == "config";
    assert "config" in c.segments;
    ProjectRootChoice(config, fs);
    assert c.segments[..|c.segments| - 2] == s[..|s| - 1];
    if rest != [] {
      assert s[..|s| - 1] == prefix + ["config"] + rest[..|rest| - 1];
    }
  }

  // ---------------------------------------------------------------------------
  // The manager object.
  // ---------------------------------------------------------------------------

  class GoogleAuthManager {
    const config: Config
    var credentials: Option<Credential>
    const projectRoot: Path
    const credentialsPath: Path
    const tokenPath: Path
    const scopes: ConfigValue

    /** Every step with an outside effect taken so far, in order. */
    ghost var Steps: seq<AuthStep>

    /** __init__: resolve the paths step by step, read the scopes, then load the credentials. */
    constructor (config: Config, fs: FileSystem, outcomes: LoadOutcomes)
      requires ConfigPathIsString(config)
      ensures this.config == config
      ensures projectRoot == ProjectRoot(config, fs)
      ensures credentialsPath == CredentialsPath(projectRoot, fs)
      ensures tokenPath == TokenPath(projectRoot, credentialsPath, fs)
      ensures scopes == Scopes(config)
      ensures Run(credentials, Steps) ==
        LoadRun(None, Exists(fs, tokenPath), Exists(fs, credentialsPath), outcomes)
    {
      this.config := config;
      credentials := None;
      Steps := [];
      var root := ResolveProjectRoot(config, fs);
      var credPath := ResolveCredentialsPath(root, fs);
      var tokPath := ResolveTokenPath(root, credPath, fs);
      projectRoot := root;
      credentialsPath := credPath;
      tokenPath := tokPath;
      scopes := Scopes(config);
      new;
      LoadCredentials(fs, outcomes);
    }

    /** _load_credentials */
    method LoadCredentials(fs: FileSystem, outcomes: LoadOutcomes)
      modifies this`credentials, this`Steps
      ensures var run := LoadRun(old(credentials), Exists(fs, tokenPath), Exists(fs, credentialsPath), outcomes);
        credentials == run.credentials && Steps == old(Steps) + run.steps
    {
      ghost var start := Steps;
      if Exists(fs, tokenPath) {
        Steps := Steps + [ReadToken];
        match outcomes.token {
          case Raised =>
            credentials := None;
            return;
          case Returned(loaded) =>
            credentials := Some(loaded);
        }
        if credentials.Some? && credentials.value.expired && credentials.value.hasRefreshToken {
          Steps := Steps + [Refresh];
          match outcomes.refresh {
            case Raised =>
              credentials := None;
              return;
            case Returned(renewed) =>
              credentials := Some(renewed);
          }
          SaveToken();
        }
      }
      if credentials.None? || !credentials.value.valid {
        Authenticate(fs, outcomes.flow);
      }
    }

    /** _authenticate */
    method Authenticate(fs: FileSystem, flow: Attempt<Credential>)
      modifies this`credentials, this`Steps
      ensures var run := AuthenticateRun(old(credentials), Exists(fs, credentialsPath), flow);
        credentials == run.credentials && Steps == old(Steps) + run.steps
    {
      if !Exists(fs, credentialsPath) {
        return;
      }
      Steps := Steps + [RunFlow];
      match flow {
        case Raised =>
          credentials := None;
        case Returned(c) =>
          credentials := Some(c);
          SaveToken();
      }
    }

    /** _save_token */
    method SaveToken()
      modifies this`Steps
      ensures Steps == old(Steps) + SaveTokenSteps(credentials)
    {
      if credentials.Some? {
        Steps := Steps + [WriteToken(credentials.value)];
      }
    }

    /** get_credentials */
    method GetCredentials(fs: FileSystem, flow: Attempt<Credential>) returns (c: Option<Credential>)
      modifies this`credentials, this`Steps
      ensures c == credentials
      ensures var run := GetCredentialsRun(old(credentials), Exists(fs, credentialsPath), flow);
        credentials == run.credentials && Steps == old(Steps) + run.steps
    {
      if credentials.None? {
        Authenticate(fs, flow);
      }
      c := credentials;
    }
  }

  /** The project-root steps of __init__: two levels above a config file inside "config", one level above any other existing config path, else the package's checkout. */
  method ResolveProjectRoot(config: Config, fs: FileSystem) returns (root: Path)
    requires ConfigPathIsString(config)
    ensures root == ProjectRoot(config, fs)
  {
    var configPath := Parse(ConfigPathString(config));
    if Exists(fs, configPath) {
      if "config" in Parts(configPath) && EndsWith(Name(configPath), ".json") {
        root := Parent(Parent(configPath));
      } else {
        root := Parent(configPath);
      }
    } else {
      root := PackageRoot(fs);
    }
  }

  /** The token-path steps of __init__: the primary token path, moved next to a relocated credentials file when missing. */
  method ResolveTokenPath(root: Path, credPath: Path, fs: FileSystem) returns (tokPath: Path)
    ensures tokPath == TokenPath(root, credPath, fs)
  {
    tokPath := PrimaryTokenPath(root);
    if !Exists(fs, tokPath) {
      if credPath != PrimaryCredentialsPath(root) {
        tokPath := Child(Parent(credPath), "token.json");
      }
    }
  }

  /** The credentials-path steps of __init__: the primary path, replaced by the first existing alternative when it is missing. */
  method ResolveCredentialsPath(root: Path, fs: FileSystem) returns (credPath: Path)
    ensures credPath == CredentialsPath(root, fs)
  {
    credPath := Child(Child(root, "config"), "credentials.json");
    if !Exists(fs, credPath) {
      var alternatives := AlternativeCredentialsPaths(fs);
      for i := 0 to |alternatives|
        invariant forall j :: 0 <= j < i ==> !Exists(fs, alternatives[j])
        invariant credPath == PrimaryCredentialsPath(root)
      {
        if Exists(fs, alternatives[i]) {
          credPath := alternatives[i];
          FirstExistingIsFirst(fs, alternatives);
          break;
        }
      }
      FirstExistingIsFirst(fs, alternatives);
    }
  }
}
