/** The app settings: the licence class the student studies for and the colour theme. */
module Settings {
  import opened Wrappers

  /** The nine licence classes. */
  datatype LicenseType = B | C1 | C | D1 | D | BE | CE | D1E | DE
  datatype ThemeMode = Auto | Light | Dark

  datatype SettingsData = SettingsData(licenseType: LicenseType, theme: ThemeMode)

  const Defaults := SettingsData(B, Auto)

  /** The parsed stored document, which may lack either field. */
  datatype StoredSettings = StoredSettings(licenseType: Option<LicenseType>, theme: Option<ThemeMode>)

  /** getData: `{ ...DEFAULT_SETTINGS, ...stored }`; nothing stored (or a document that does not
      parse) gives the defaults. */
  function Merged(stored: Option<StoredSettings>): (s: SettingsData)
    ensures stored.None? ==> s == Defaults
    ensures stored.Some? && stored.value.licenseType.Some? ==> s.licenseType == stored.value.licenseType.value
    ensures stored.Some? && stored.value.licenseType.None? ==> s.licenseType == Defaults.licenseType
    ensures stored.Some? && stored.value.theme.Some? ==> s.theme == stored.value.theme.value
    ensures stored.Some? && stored.value.theme.None? ==> s.theme == Defaults.theme
  {
    match stored
    case None => Defaults
    case Some(d) =>
      SettingsData(if d.licenseType.Some? then d.licenseType.value else Defaults.licenseType,
                   if d.theme.Some? then d.theme.value else Defaults.theme)
  }

  /** The document setData writes: both fields. */
  function Written(s: SettingsData): (stored: StoredSettings)
    ensures Merged(Some(stored)) == s
  {
    StoredSettings(Some(s.licenseType), Some(s.theme))
  }

  /** A fully written document reads back as written, so writing what was read changes nothing
      that can be read. */
  lemma WrittenRoundTrip(stored: Option<StoredSettings>)
    ensures Merged(Some(Written(Merged(stored)))) == Merged(stored)
  {}

  /** The code of a licence class, as stored. */
  function Code(t: LicenseType): (code: string)
    ensures |code| >= 1 && code[0] in {'B', 'C', 'D'}
  {
    match t
    case B => "B" case C1 => "C1" case C => "C" case D1 => "D1" case D => "D"
    case BE => "BE" case CE => "CE" case D1E => "D1E" case DE => "DE"
  }

  /** Different classes have different codes. */
  lemma CodeInjective(s: LicenseType, t: LicenseType)
    ensures Code(s) == Code(t) ==> s == t
  {}

  datatype LicenseInfo = LicenseInfo(name: string, desc: string, icon: string)

  /** LICENSE_INFO: every class has a display entry named after its code. */
  function Info(t: LicenseType): (info: LicenseInfo)
    ensures info.name == "Hạng " + Code(t)
    ensures info.desc != "" && info.icon != ""
  {
    match t
    case B => LicenseInfo("Hạng B", "Ô tô chở người ≤ 9 chỗ", "🚗")
    case C1 => LicenseInfo("Hạng C1", "Xe tải 3.5 - 7.5 tấn", "🚚")
    case C => LicenseInfo("Hạng C", "Xe tải > 7.5 tấn", "🚛")
    case D1 => LicenseInfo("Hạng D1", "Xe khách 10-30 chỗ", "🚌")
    case D => LicenseInfo("Hạng D", "Xe khách > 30 chỗ", "🚍")
    case BE => LicenseInfo("Hạng BE", "B + kéo rơ-moóc", "🚗")
    case CE => LicenseInfo("Hạng CE", "C + kéo rơ-moóc", "🚛")
    case D1E => LicenseInfo("Hạng D1E", "D1 + kéo rơ-moóc", "🚌")
    case DE => LicenseInfo("Hạng DE", "D + kéo rơ-moóc", "🚍")
  }

  /** The display names of the classes are all different. */
  lemma InfoNamesDistinct(s: LicenseType, t: LicenseType)
    requires s != t
    ensures Info(s).name != Info(t).name
  {
    CodeInjective(s, t);
    var prefix := "Hạng ";
    assert Info(s).name[|prefix|..] == Code(s);
    assert Info(t).name[|prefix|..] == Code(t);
  }

  /** The stored settings document. */
  class SettingsStore {
    var stored: Option<StoredSettings>

    constructor ()
      ensures stored == None
    {
      stored := None;
    }

    /** getLicenseType. */
    function GetLicenseType(): (t: LicenseType)
      reads this
      ensures t == Merged(stored).licenseType
    {
      if stored.Some? && stored.value.licenseType.Some? then stored.value.licenseType.value else B
    }

    /** getTheme. */
    function GetTheme(): (m: ThemeMode)
      reads this
      ensures m == Merged(stored).theme
    {
      if stored.Some? && stored.value.theme.Some? then stored.value.theme.value else Auto
    }

    /** setLicenseType: the merged document is written back with the new class. */
    method SetLicenseType(t: LicenseType)
      modifies this
      ensures stored == Some(Written(Merged(old(stored)).(licenseType := t)))
      ensures GetLicenseType() == t && GetTheme() == old(GetTheme())
    {
      var data := Merged(stored);
      data := data.(licenseType := t);
      stored := Some(Written(data));
    }

    /** setTheme: the merged document is written back with the new theme. */
    method SetTheme(m: ThemeMode)
      modifies this
      ensures stored == Some(Written(Merged(old(stored)).(theme := m)))
      ensures GetTheme() == m && GetLicenseType() == old(GetLicenseType())
    {
      var data := Merged(stored);
      data := data.(theme := m);
      stored := Some(Written(data));
    }
  }
}
