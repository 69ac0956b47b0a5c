/** Per-user settings with defaults and partial updates
    (src/services/settings.ts, src/types/settings.ts). */
module Settings {
  import opened Wrappers

  const DEFAULT_INTERVAL: int := 30

  /** The choices the settings screen offers; the store does not enforce them. */
  const CHECKIN_INTERVAL_OPTIONS: seq<int> := [10, 15, 20, 25, 30]

  /** Settings as the application reads them. */
  datatype UserSettings = UserSettings(checkinBonusInterval: int)

  const DEFAULT_SETTINGS: UserSettings := UserSettings(DEFAULT_INTERVAL)

  /** The stored settings document; a missing or null field is `None`. */
  datatype SettingsDoc = SettingsDoc(checkinBonusInterval: Option<int>)

  /** `Partial<UserSettings>`: a field left out of the update is `None`. */
  datatype SettingsUpdate = SettingsUpdate(checkinBonusInterval: Option<int>)

  /** `getUserSettings` on the stored document: the defaults when there is
      no document, the default interval when the field is missing or null,
      and any stored number as it is otherwise. */
  function ReadSettings(doc: Option<SettingsDoc>): (s: UserSettings)
    ensures doc.None? ==> s == DEFAULT_SETTINGS
    ensures doc.Some? && doc.value.checkinBonusInterval.None? ==> s.checkinBonusInterval == DEFAULT_INTERVAL
    ensures doc.Some? && doc.value.checkinBonusInterval.Some? ==>
      s.checkinBonusInterval == doc.value.checkinBonusInterval.value
  {
    match doc
    case None => DEFAULT_SETTINGS
    case Some(d) =>
      UserSettings(match d.checkinBonusInterval case Some(v) => v case None => DEFAULT_INTERVAL)
  }

  /** `{ ...base, ...updates }`: every field the update carries wins. */
  function Overlay(base: UserSettings, u: SettingsUpdate): (s: UserSettings)
    ensures u.checkinBonusInterval.Some? ==> s.checkinBonusInterval == u.checkinBonusInterval.value
    ensures u.checkinBonusInterval.None? ==> s == base
  {
    match u.checkinBonusInterval
    case Some(v) => base.(checkinBonusInterval := v)
    case None => base
  }

  /** `updateDoc(ref, updates)`: the fields the update names are overwritten,
      the others keep their stored value. */
  function MergeDoc(d: SettingsDoc, u: SettingsUpdate): (r: SettingsDoc)
    ensures u.checkinBonusInterval.Some? ==> r.checkinBonusInterval == u.checkinBonusInterval
    ensures u.checkinBonusInterval.None? ==> r == d
  {
    if u.checkinBonusInterval.Some? then d.(checkinBonusInterval := u.checkinBonusInterval) else d
  }

  /** The settings document of one user. */
  class SettingsStore {
    var doc: Option<SettingsDoc>

    constructor (initial: Option<SettingsDoc>)
      ensures doc == initial
    {
      doc := initial;
    }

    function GetUserSettings(): UserSettings
      reads this
    {
      ReadSettings(doc)
    }

    /** `updateUserSettings`: writes defaults overlaid by the update when no
        document exists, merges into the stored document otherwise, and returns
        what a read then gives. */
    method UpdateUserSettings(u: SettingsUpdate) returns (r: UserSettings)
      modifies this
      ensures old(doc).None? ==>
        r == Overlay(DEFAULT_SETTINGS, u) &&
        doc == Some(SettingsDoc(Some(r.checkinBonusInterval)))
      ensures old(doc).Some? ==> doc == Some(MergeDoc(old(doc).value, u))
      ensures r == GetUserSettings()
      ensures u.checkinBonusInterval.None? ==> r == old(GetUserSettings())
      ensures u.checkinBonusInterval.Some? ==> r.checkinBonusInterval == u.checkinBonusInterval.value
    {
      if doc.None? {
        r := Overlay(DEFAULT_SETTINGS, u);
        doc := Some(SettingsDoc(Some(r.checkinBonusInterval)));
      } else {
        doc := Some(MergeDoc(doc.value, u));
        r := GetUserSettings();
      }
    }
  }
}
