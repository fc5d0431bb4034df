/**
 * The script's entry point: find the username, then run the graduation step
 * with the playlist names written into the script.
 */
module Entry {
  import opened Wrappers
  import opened Library
  import opened Classification
  import opened Graduation

  /** Where the username came from, or that none was given. */
  datatype Username = Given(name: string) | Usage

  /**
   * The username: the environment value when it is set and non-empty,
   * otherwise the first command-line argument after the program name,
   * otherwise none.
   */
  function ResolveUsername(env: Option<string>, argv: seq<string>): (r: Username)
    ensures r.Given? <==> (env.Some? && env.value != "") || |argv| > 1
    ensures r.Given? && env.Some? && env.value != "" ==> r.name == env.value
    ensures r.Given? && (env.None? || env.value == "") ==> r.name == argv[1]
  {
    if env.Some? && env.value != "" then Given(env.value)
    else if |argv| > 1 then Given(argv[1])
    else Usage
  }

  /** A set, non-empty environment value makes the arguments irrelevant. */
  lemma EnvironmentWins(name: string, argv: seq<string>, argv': seq<string>)
    requires name != ""
    ensures ResolveUsername(Some(name), argv) == ResolveUsername(Some(name), argv')
  {
  }

  /** An empty environment value counts as no value at all. */
  lemma EmptyEnvironmentFallsThrough(argv: seq<string>)
    ensures ResolveUsername(Some(""), argv) == ResolveUsername(None, argv)
  {
  }

  /**
   * One run of the script against the account in `store`, with `env` the
   * username environment variable and `argv` the command line.
   */
  method Run(store: Store, env: Option<string>, argv: seq<string>) returns (outcome: Outcome)
    requires store.Valid()
    modifies store
    ensures store.Valid()
    ensures ResolveUsername(env, argv) == Usage ==>
      outcome == ShowedUsage && store.State() == old(store.State())
    ensures ResolveUsername(env, argv).Given? ==>
      Graduated(old(store.State()), DefaultConfig, outcome, store.State())
  {
    var username := ResolveUsername(env, argv);
    if username.Usage? {
      return ShowedUsage;
    }
    outcome := Sync(store, DefaultConfig);
  }
}
