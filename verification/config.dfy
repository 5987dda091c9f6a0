/**
 * Application configuration (internal/config/config.go): the Config record and
 * Validate, four guards checked in a fixed order.
 */
module Configuration {
  import opened Wrappers

  /** The loaded settings; LoadConfig, which fills them from files and the environment, is not part of this model. */
  datatype Config = Config(
    feedUrl: string,
    mastodonServer: string,
    mastodonAccessToken: string,
    templateFile: string,
    databasePath: string,
    characterLimit: int,
    maxItems: int,
    postVisibility: string,
    contentWarning: string)

  /** The first failing check, one per error message of Validate. */
  datatype ConfigError = FeedUrlRequired | MastodonServerRequired | AccessTokenRequired | InvalidVisibility

  /** The four visibilities Mastodon accepts; lookup in a map of literals, so "" is not one. */
  predicate ValidVisibility(v: string) {
    v == "public" || v == "unlisted" || v == "private" || v == "direct"
  }

  /** Validate: the first of feed URL, server, token and visibility that is missing or wrong, else no error. */
  function Validate(c: Config): (err: Option<ConfigError>)
    ensures c.feedUrl == "" ==> err == Some(FeedUrlRequired)
    ensures c.feedUrl != "" && c.mastodonServer == "" ==> err == Some(MastodonServerRequired)
    ensures c.feedUrl != "" && c.mastodonServer != "" && c.mastodonAccessToken == "" ==> err == Some(AccessTokenRequired)
    ensures c.feedUrl != "" && c.mastodonServer != "" && c.mastodonAccessToken != "" && !ValidVisibility(c.postVisibility) ==>
              err == Some(InvalidVisibility)
    ensures err.None? <==>
              c.feedUrl != "" && c.mastodonServer != "" && c.mastodonAccessToken != "" && ValidVisibility(c.postVisibility)
  {
    if c.feedUrl == "" then Some(FeedUrlRequired)
    else if c.mastodonServer == "" then Some(MastodonServerRequired)
    else if c.mastodonAccessToken == "" then Some(AccessTokenRequired)
    else if !ValidVisibility(c.postVisibility) then Some(InvalidVisibility)
    else None
  }

  /** Only the four checked fields matter: configs agreeing on them validate alike. */
  lemma ValidateReadsOnlyChecked(c: Config, d: Config)
    requires c.feedUrl == d.feedUrl && c.mastodonServer == d.mastodonServer
    requires c.mastodonAccessToken == d.mastodonAccessToken && c.postVisibility == d.postVisibility
    ensures Validate(c) == Validate(d)
  {
  }

  /** The visibility strings accepted, and some that are not: the empty string and a different case. */
  lemma VisibilityTable()
    ensures ValidVisibility("public") && ValidVisibility("unlisted")
    ensures ValidVisibility("private") && ValidVisibility("direct")
    ensures !ValidVisibility("") && !ValidVisibility("Public") && !ValidVisibility("invalid")
  {
  }

  /** Reported errors follow the check order: a config missing everything reports the feed URL first. */
  lemma ValidateOrderTable(c: Config)
    ensures Validate(c.(feedUrl := "", mastodonServer := "", mastodonAccessToken := "", postVisibility := "")) == Some(FeedUrlRequired)
    ensures c.feedUrl != "" ==>
              Validate(c.(mastodonServer := "", mastodonAccessToken := "", postVisibility := "")) == Some(MastodonServerRequired)
    ensures c.feedUrl != "" && c.mastodonServer != "" ==>
              Validate(c.(mastodonAccessToken := "", postVisibility := "")) == Some(AccessTokenRequired)
  {
  }
}
