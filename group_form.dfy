/**
 * The group form helpers (features/group/types/form.ts): the default settings,
 * the empty initial form, updates of one settings flag or one notification
 * flag, and the check that a partly filled form has every required field.
 */
module GroupForm {
  import opened Wrappers

  datatype NotificationSettings = NotificationSettings(newMember: bool, contentUpdate: bool, memberLeave: bool)

  datatype GroupSettings = GroupSettings(
    allowMemberInvite: bool,
    requireApproval: bool,
    notificationSettings: NotificationSettings)

  /** The form; its optional icon is never checked and is left out. */
  datatype FormData = FormData(name: string, description: string, isPublic: bool, settings: GroupSettings)

  /** The top-level flags of the settings. */
  datatype SettingsKey = AllowMemberInvite | RequireApproval

  /** The flags of the notification settings. */
  datatype NotificationKey = NewMember | ContentUpdate | MemberLeave

  const DefaultNotificationSettings := NotificationSettings(true, true, true)

  const DefaultSettings := GroupSettings(true, true, DefaultNotificationSettings)

  /** INITIAL_FORM_DATA. */
  const InitialFormData := FormData("", "", false, DefaultSettings)

  /** `settings[key]`. */
  function SettingValue(settings: GroupSettings, key: SettingsKey): bool {
    match key
    case AllowMemberInvite => settings.allowMemberInvite
    case RequireApproval => settings.requireApproval
  }

  /** `notificationSettings[key]`. */
  function NotificationValue(n: NotificationSettings, key: NotificationKey): bool {
    match key
    case NewMember => n.newMember
    case ContentUpdate => n.contentUpdate
    case MemberLeave => n.memberLeave
  }

  /**
   * createUpdatedSettings: the named flag takes the value; the other flag and
   * the notification settings are as they were.
   */
  function CreateUpdatedSettings(settings: GroupSettings, key: SettingsKey, value: bool): (r: GroupSettings)
    ensures SettingValue(r, key) == value
    ensures forall k :: k != key ==> SettingValue(r, k) == SettingValue(settings, k)
    ensures r.notificationSettings == settings.notificationSettings
  {
    match key
    case AllowMemberInvite => settings.(allowMemberInvite := value)
    case RequireApproval => settings.(requireApproval := value)
  }

  /**
   * createUpdatedNotifications: the named notification flag takes the value;
   * the other notification flags and both top-level flags are as they were.
   */
  function CreateUpdatedNotifications(settings: GroupSettings, key: NotificationKey, value: bool): (r: GroupSettings)
    ensures NotificationValue(r.notificationSettings, key) == value
    ensures forall k :: k != key ==>
              NotificationValue(r.notificationSettings, k) == NotificationValue(settings.notificationSettings, k)
    ensures forall k :: SettingValue(r, k) == SettingValue(settings, k)
  {
    var n := settings.notificationSettings;
    var updated := match key
      case NewMember => n.(newMember := value)
      case ContentUpdate => n.(contentUpdate := value)
      case MemberLeave => n.(memberLeave := value);
    settings.(notificationSettings := updated)
  }

  /** Settings are equal when every flag is. */
  lemma SettingsExtensional(a: GroupSettings, b: GroupSettings)
    requires forall k :: SettingValue(a, k) == SettingValue(b, k)
    requires forall k :: NotificationValue(a.notificationSettings, k) == NotificationValue(b.notificationSettings, k)
    ensures a == b
  {
    assert SettingValue(a, AllowMemberInvite) == SettingValue(b, AllowMemberInvite);
    assert SettingValue(a, RequireApproval) == SettingValue(b, RequireApproval);
    assert NotificationValue(a.notificationSettings, NewMember) == NotificationValue(b.notificationSettings, NewMember);
    assert NotificationValue(a.notificationSettings, ContentUpdate)
           == NotificationValue(b.notificationSettings, ContentUpdate);
    assert NotificationValue(a.notificationSettings, MemberLeave) == NotificationValue(b.notificationSettings, MemberLeave);
  }

  /** Applying the same flag update twice is applying it once, for both updates. */
  lemma UpdatesIdempotent(s: GroupSettings, key: SettingsKey, nkey: NotificationKey, value: bool)
    ensures CreateUpdatedSettings(CreateUpdatedSettings(s, key, value), key, value) == CreateUpdatedSettings(s, key, value)
    ensures CreateUpdatedNotifications(CreateUpdatedNotifications(s, nkey, value), nkey, value)
            == CreateUpdatedNotifications(s, nkey, value)
  {
    var once := CreateUpdatedSettings(s, key, value);
    SettingsExtensional(CreateUpdatedSettings(once, key, value), once);
    var nonce := CreateUpdatedNotifications(s, nkey, value);
    SettingsExtensional(CreateUpdatedNotifications(nonce, nkey, value), nonce);
  }

  /** Setting a flag to the value it already has changes nothing. */
  lemma UpdateToSameValue(s: GroupSettings, key: SettingsKey, nkey: NotificationKey)
    ensures CreateUpdatedSettings(s, key, SettingValue(s, key)) == s
    ensures CreateUpdatedNotifications(s, nkey, NotificationValue(s.notificationSettings, nkey)) == s
  {
    SettingsExtensional(CreateUpdatedSettings(s, key, SettingValue(s, key)), s);
    SettingsExtensional(CreateUpdatedNotifications(s, nkey, NotificationValue(s.notificationSettings, nkey)), s);
  }

  /** Updates of different top-level flags commute. */
  lemma SettingsUpdatesCommute(s: GroupSettings, key: SettingsKey, other: SettingsKey, value: bool, v2: bool)
    requires key != other
    ensures CreateUpdatedSettings(CreateUpdatedSettings(s, key, value), other, v2)
            == CreateUpdatedSettings(CreateUpdatedSettings(s, other, v2), key, value)
  {
    SettingsExtensional(CreateUpdatedSettings(CreateUpdatedSettings(s, key, value), other, v2),
                        CreateUpdatedSettings(CreateUpdatedSettings(s, other, v2), key, value));
  }

  /** A top-level flag update and a notification flag update commute. */
  lemma MixedUpdatesCommute(s: GroupSettings, key: SettingsKey, nkey: NotificationKey, value: bool, v2: bool)
    ensures CreateUpdatedSettings(CreateUpdatedNotifications(s, nkey, value), key, v2)
            == CreateUpdatedNotifications(CreateUpdatedSettings(s, key, v2), nkey, value)
  {
    SettingsExtensional(CreateUpdatedSettings(CreateUpdatedNotifications(s, nkey, value), key, v2),
                        CreateUpdatedNotifications(CreateUpdatedSettings(s, key, v2), nkey, value));
  }

  // A partly filled form as hasRequiredFields sees it: a missing field, or a
  // flag that is not a boolean, is None.

  datatype PartialNotifications = PartialNotifications(newMember: Option<bool>, contentUpdate: Option<bool>, memberLeave: Option<bool>)

  datatype PartialSettings = PartialSettings(
    allowMemberInvite: Option<bool>,
    requireApproval: Option<bool>,
    notificationSettings: Option<PartialNotifications>)

  datatype PartialFormData = PartialFormData(
    name: Option<string>,
    description: Option<string>,
    isPublic: Option<bool>,
    settings: Option<PartialSettings>)

  /** A string field is truthy: present and not empty. */
  predicate Filled(s: Option<string>) {
    s.Some? && s.value != ""
  }

  /** hasRequiredFields. */
  predicate HasRequiredFields(data: PartialFormData) {
    && Filled(data.name)
    && Filled(data.description)
    && data.isPublic.Some?
    && data.settings.Some?
    && data.settings.value.allowMemberInvite.Some?
    && data.settings.value.requireApproval.Some?
    && data.settings.value.notificationSettings.Some?
    && data.settings.value.notificationSettings.value.newMember.Some?
    && data.settings.value.notificationSettings.value.contentUpdate.Some?
    && data.settings.value.notificationSettings.value.memberLeave.Some?
  }

  /** A complete form seen as a partly filled one. */
  function AsPartial(f: FormData): PartialFormData {
    var n := f.settings.notificationSettings;
    PartialFormData(Some(f.name), Some(f.description), Some(f.isPublic),
      Some(PartialSettings(Some(f.settings.allowMemberInvite), Some(f.settings.requireApproval),
        Some(PartialNotifications(Some(n.newMember), Some(n.contentUpdate), Some(n.memberLeave))))))
  }

  /**
   * hasRequiredFields holds exactly for complete forms with a non-empty name
   * and description: it fails when either is missing or empty, and when any
   * of the five flags is missing or not a boolean.
   */
  lemma HasRequiredFieldsIff(data: PartialFormData)
    ensures HasRequiredFields(data) <==>
              exists f: FormData :: AsPartial(f) == data && f.name != "" && f.description != ""
    ensures !Filled(data.name) || !Filled(data.description) ==> !HasRequiredFields(data)
  {
    if HasRequiredFields(data) {
      var s := data.settings.value;
      var n := s.notificationSettings.value;
      var f := FormData(data.name.value, data.description.value, data.isPublic.value,
        GroupSettings(s.allowMemberInvite.value, s.requireApproval.value,
          NotificationSettings(n.newMember.value, n.contentUpdate.value, n.memberLeave.value)));
      assert AsPartial(f) == data;
    }
  }

  /** The initial form fails the check, because its name is empty. */
  lemma InitialFormIncomplete()
    ensures !HasRequiredFields(AsPartial(InitialFormData))
    ensures HasRequiredFields(AsPartial(InitialFormData.(name := "n", description := "d")))
  {
  }
}
