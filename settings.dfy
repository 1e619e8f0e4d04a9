/** The user configuration: its defaults, the merge `loadUserConfig` performs with a
    stored object, what `saveUserConfig` stores, and the edits of the user card. */
module Settings {
  import opened Wrappers
  import opened Strings

  datatype Theme = Light | Dark

  /** `UserConfig`; `userAvatar` is optional. */
  datatype UserConfig = UserConfig(userId: string, userMotto: string, userAvatar: Option<string>,
                                   theme: Theme, showTimestamp: bool, autoSave: bool)

  /** The fields a stored configuration object has (None for a field it lacks). */
  datatype ConfigPatch = ConfigPatch(userId: Option<string>, userMotto: Option<string>, userAvatar: Option<string>,
                                     theme: Option<Theme>, showTimestamp: Option<bool>, autoSave: Option<bool>)

  /** The configuration a new manager starts with. */
  const Defaults: UserConfig := UserConfig("我的任务看板", "今日事, 今日毕 🚀", None, Light, true, true)

  /** `{ ...config, ...stored }`: every field the stored object has replaces the
      current one; every field it lacks keeps its current value. */
  function Merge(config: UserConfig, stored: ConfigPatch): (r: UserConfig)
    ensures stored.userId.None? ==> r.userId == config.userId
    ensures stored.userMotto.None? ==> r.userMotto == config.userMotto
    ensures stored.userAvatar.None? ==> r.userAvatar == config.userAvatar
    ensures stored.theme.None? ==> r.theme == config.theme
    ensures stored.showTimestamp.None? ==> r.showTimestamp == config.showTimestamp
    ensures stored.autoSave.None? ==> r.autoSave == config.autoSave
    ensures stored.userId.Some? ==> r.userId == stored.userId.value
    ensures stored.userMotto.Some? ==> r.userMotto == stored.userMotto.value
    ensures stored.userAvatar.Some? ==> r.userAvatar == stored.userAvatar
    ensures stored.theme.Some? ==> r.theme == stored.theme.value
    ensures stored.showTimestamp.Some? ==> r.showTimestamp == stored.showTimestamp.value
    ensures stored.autoSave.Some? ==> r.autoSave == stored.autoSave.value
  {
    UserConfig(stored.userId.GetOr(config.userId), stored.userMotto.GetOr(config.userMotto),
               if stored.userAvatar.Some? then stored.userAvatar else config.userAvatar,
               stored.theme.GetOr(config.theme), stored.showTimestamp.GetOr(config.showTimestamp),
               stored.autoSave.GetOr(config.autoSave))
  }

  /** The object `JSON.stringify(userConfig)` stores: every field, except an absent avatar. */
  function ToPatch(config: UserConfig): (r: ConfigPatch)
    ensures r.userId.Some? && r.userMotto.Some? && r.theme.Some? && r.showTimestamp.Some? && r.autoSave.Some?
    ensures r.userAvatar == config.userAvatar
    ensures Merge(config, r) == config
  {
    ConfigPatch(Some(config.userId), Some(config.userMotto), config.userAvatar,
                Some(config.theme), Some(config.showTimestamp), Some(config.autoSave))
  }

  /** Merging what was saved gives back the saved configuration, provided the
      configuration merged into has no avatar the saved one lacks (as the defaults). */
  lemma MergeSaved(base: UserConfig, config: UserConfig)
    requires config.userAvatar.Some? || base.userAvatar.None?
    ensures Merge(base, ToPatch(config)) == config
  {
  }

  /** Merging an empty object keeps every field. */
  lemma MergeNothing(config: UserConfig)
    ensures Merge(config, ConfigPatch(None, None, None, None, None, None)) == config
  {
  }

  /** The answer `editUserId`/`editMotto` keep: the trimmed answer of the prompt,
      unless the prompt was cancelled (`null`) or answered with white space only. */
  function Edited(current: string, answer: Option<string>): (r: string)
    ensures answer.None? || IsBlank(answer.value) ==> r == current
    ensures answer.Some? && !IsBlank(answer.value) ==> r == Trim(answer.value) && !IsBlank(r) && Trim(r) == r
  {
    if answer.Some? && !IsBlank(answer.value) then
      TrimIdempotent(answer.value);
      Trim(answer.value)
    else current
  }
}
