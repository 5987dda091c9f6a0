/**
 * Access-token lookup shared by the commands (internal/commands/helpers.go):
 * the config's token wins, otherwise the settings table's mastodon_access_token.
 * The settings table is read-only here; its read is an input.
 */
module AccessToken {
  import opened Wrappers
  import opened Configuration

  /** The settings key the link/code commands store the token under. */
  const TokenSetting := "mastodon_access_token"

  /** The outcome of reading the settings table: its contents, or a storage error. */
  datatype SettingsRead = Settings(values: map<string, string>) | ReadError(reason: string)

  datatype TokenError = SettingsReadFailed(reason: string) | NoAccessToken

  /** getAccessToken: the config's token if set, else the stored setting if present and non-empty. */
  function GetAccessToken(cfg: Config, settings: SettingsRead): (r: Result<string, TokenError>)
    ensures cfg.mastodonAccessToken != "" ==> r == Success(cfg.mastodonAccessToken)
    ensures cfg.mastodonAccessToken == "" && settings.ReadError? ==> r == Failure(SettingsReadFailed(settings.reason))
    ensures cfg.mastodonAccessToken == "" && settings.Settings? ==>
              if TokenSetting in settings.values && settings.values[TokenSetting] != ""
              then r == Success(settings.values[TokenSetting])
              else r == Failure(NoAccessToken)
    ensures r.Success? ==> r.value != ""
  {
    if cfg.mastodonAccessToken != "" then Success(cfg.mastodonAccessToken)
    else
      match settings
      case ReadError(reason) => Failure(SettingsReadFailed(reason))
      case Settings(values) =>
        if TokenSetting !in values || values[TokenSetting] == "" then Failure(NoAccessToken)
        else Success(values[TokenSetting])
  }

  /** A configured token is used whatever the settings table holds, even when it cannot be read. */
  lemma ConfigTokenWins(cfg: Config, a: SettingsRead, b: SettingsRead)
    requires cfg.mastodonAccessToken != ""
    ensures GetAccessToken(cfg, a) == GetAccessToken(cfg, b)
  {
  }

  /** A token is found exactly when one of the two sources holds a non-empty one. */
  lemma TokenFoundIff(cfg: Config, settings: SettingsRead)
    ensures GetAccessToken(cfg, settings).Success? <==>
              cfg.mastodonAccessToken != "" ||
              (settings.Settings? && TokenSetting in settings.values && settings.values[TokenSetting] != "")
  {
  }
}
