/**
 * `generateAcfContent`: the `appmanifest_<appid>.acf` text Steam reads,
 * built from a fixed template by replacing field values. The manifest is
 * modelled as its list of (key, value) fields in template order; the wall
 * clock reading (`Date.now()`) is a parameter.
 */
module Acf {
  import opened Wrappers

  /** The number of fields in the template. */
  const KEY_COUNT: nat := 18

  /** A key of the template, identified by the line it has there. */
  newtype Key = k: int | 0 <= k < 18

  const APP_ID: Key := 0
  const UNIVERSE: Key := 1
  const NAME: Key := 2
  const STATE_FLAGS: Key := 3
  const INSTALL_DIR: Key := 4
  const LAST_UPDATED: Key := 5
  const SIZE_ON_DISK: Key := 6
  const BUILD_ID: Key := 7
  const LAST_OWNER: Key := 8
  const DOWNLOAD_TYPE: Key := 9
  const UPDATE_RESULT: Key := 10
  const BYTES_TO_DOWNLOAD: Key := 11
  const BYTES_DOWNLOADED: Key := 12
  const BYTES_TO_STAGE: Key := 13
  const BYTES_STAGED: Key := 14
  const AUTO_UPDATE_BEHAVIOR: Key := 15
  const ALLOW_OTHER_DOWNLOADS_WHILE_RUNNING: Key := 16
  const SCHEDULED_AUTO_UPDATE: Key := 17

  /** The quoted name a key has in the manifest text. */
  function KeyName(k: Key): string {
    if k == APP_ID then "appid"
    else if k == UNIVERSE then "universe"
    else if k == NAME then "name"
    else if k == STATE_FLAGS then "StateFlags"
    else if k == INSTALL_DIR then "installdir"
    else if k == LAST_UPDATED then "LastUpdated"
    else if k == SIZE_ON_DISK then "SizeOnDisk"
    else if k == BUILD_ID then "buildid"
    else if k == LAST_OWNER then "LastOwner"
    else if k == DOWNLOAD_TYPE then "DownloadType"
    else if k == UPDATE_RESULT then "UpdateResult"
    else if k == BYTES_TO_DOWNLOAD then "BytesToDownload"
    else if k == BYTES_DOWNLOADED then "BytesDownloaded"
    else if k == BYTES_TO_STAGE then "BytesToStage"
    else if k == BYTES_STAGED then "BytesStaged"
    else if k == AUTO_UPDATE_BEHAVIOR then "AutoUpdateBehavior"
    else if k == ALLOW_OTHER_DOWNLOADS_WHILE_RUNNING then "AllowOtherDownloadsWhileRunning"
    else "ScheduledAutoUpdate"
  }

  /** Different keys have different quoted names in the template. */
  lemma KeyNameInjective(a: Key, b: Key)
    requires KeyName(a) == KeyName(b)
    ensures a == b
  {
  }

  datatype Field = Field(key: Key, value: string)

  /** The value the template gives each key; `LastUpdated` is the clock reading. */
  function DefaultValue(k: Key, unixTime: string): string {
    if k == APP_ID then "999999"
    else if k == UNIVERSE then "1"
    else if k == NAME then "Generic ACF Template"
    else if k == STATE_FLAGS then "4"
    else if k == INSTALL_DIR then "GenericTemplate"
    else if k == LAST_UPDATED then unixTime
    else if k == SIZE_ON_DISK then "0"
    else if k == BUILD_ID then "1"
    else if k == LAST_OWNER then "0"
    else if k == DOWNLOAD_TYPE then "1"
    else if k == UPDATE_RESULT then "0"
    else if k == BYTES_TO_DOWNLOAD then "0"
    else if k == BYTES_DOWNLOADED then "0"
    else if k == BYTES_TO_STAGE then "0"
    else if k == BYTES_STAGED then "0"
    else if k == AUTO_UPDATE_BEHAVIOR then "0"
    else if k == ALLOW_OTHER_DOWNLOADS_WHILE_RUNNING then "0"
    else "0"
  }

  /** `buildDefaultTemplate`, with `unixTime` as the clock reading: every key once, in the order above. */
  function Template(unixTime: string): (t: seq<Field>)
    ensures InTemplateOrder(t)
  {
    seq(KEY_COUNT, i requires 0 <= i < KEY_COUNT => Field(i as Key, DefaultValue(i as Key, unixTime)))
  }

  /** The keys whose values `generateAcfContent` sets. */
  const SET_KEYS: set<Key> :=
    {APP_ID, INSTALL_DIR, NAME, STATE_FLAGS, LAST_UPDATED, SIZE_ON_DISK,
     BYTES_TO_DOWNLOAD, BYTES_DOWNLOADED, BYTES_TO_STAGE, BYTES_STAGED}

  /** Fields laid out like the template: line `i` holds key `i`. */
  predicate InTemplateOrder(fs: seq<Field>) {
    |fs| == KEY_COUNT && forall i :: 0 <= i < |fs| ==> fs[i].key as int == i
  }

  function Keys(fs: seq<Field>): seq<Key> {
    seq(|fs|, i requires 0 <= i < |fs| => fs[i].key)
  }

  predicate UniqueKeys(fs: seq<Field>) {
    forall i, j :: 0 <= i < j < |fs| ==> fs[i].key != fs[j].key
  }

  /** The value of the first field named `k`. */
  function ValueOf(fs: seq<Field>, k: Key): Option<string> {
    if |fs| == 0 then None else if fs[0].key == k then Some(fs[0].value) else ValueOf(fs[1..], k)
  }

  /** `replace(/("k"\s+)".*?"/, '$1"v"')`: the first field named `k` takes the value `v`. */
  function SetFirst(fs: seq<Field>, k: Key, v: string): (r: seq<Field>)
    ensures |r| == |fs| && forall i :: 0 <= i < |fs| ==> r[i].key == fs[i].key
  {
    if |fs| == 0 then []
    else if fs[0].key == k then [Field(k, v)] + fs[1..]
    else [fs[0]] + SetFirst(fs[1..], k, v)
  }

  /** The same replacement with the `g` flag: every field named `k`. */
  function SetAll(fs: seq<Field>, k: Key, v: string): (r: seq<Field>)
    ensures |r| == |fs| && forall i :: 0 <= i < |fs| ==> r[i].key == fs[i].key
  {
    seq(|fs|, i requires 0 <= i < |fs| => if fs[i].key == k then Field(k, v) else fs[i])
  }

  lemma {:induction false} ValueOfAt(fs: seq<Field>, i: nat)
    requires UniqueKeys(fs) && i < |fs|
    ensures ValueOf(fs, fs[i].key) == Some(fs[i].value)
  {
    if i > 0 {
      assert fs[0].key != fs[i].key;
      ValueOfAt(fs[1..], i - 1);
    }
  }

  lemma TemplateKeysUnique(unixTime: string)
    ensures UniqueKeys(Template(unixTime))
  {
  }

  /** On fields in template order the value of key `k` is the one on its line. */
  lemma ValueInOrder(fs: seq<Field>, k: Key)
    requires InTemplateOrder(fs)
    ensures ValueOf(fs, k) == Some(fs[k as int].value)
  {
    ValueOfAt(fs, k as int);
  }

  /**
   * `generateAcfContent(folderName, targetAppId, officialName)`: `officialName`
   * is used for `name` unless it is empty (`officialName || folderName`).
   */
  function GenerateAcfContent(folderName: string, targetAppId: string, officialName: string,
                              unixTime: string): seq<Field>
  {
    Fill(Template(unixTime), folderName, targetAppId, officialName, unixTime)
  }

  /** The ten replacements, applied in source order to `content`. */
  function Fill(content: seq<Field>, folderName: string, targetAppId: string, officialName: string,
                unixTime: string): seq<Field>
  {
    var content := SetFirst(content, APP_ID, targetAppId);
    var content := SetFirst(content, INSTALL_DIR, folderName);
    var nameToUse := if officialName != "" then officialName else folderName;
    var content := SetFirst(content, NAME, nameToUse);
    var content := SetFirst(content, STATE_FLAGS, "4");
    var content := SetFirst(content, LAST_UPDATED, unixTime);
    var content := SetFirst(content, SIZE_ON_DISK, "0");
    var content := SetAll(content, BYTES_TO_DOWNLOAD, "0");
    var content := SetAll(content, BYTES_DOWNLOADED, "0");
    var content := SetAll(content, BYTES_TO_STAGE, "0");
    var content := SetAll(content, BYTES_STAGED, "0");
    content
  }

  /** Key by key, the value a manifest for this match must carry; `None` leaves the template's value. */
  function Assigned(k: Key, folderName: string, targetAppId: string, officialName: string,
                    unixTime: string): (r: Option<string>)
    ensures r.Some? <==> k in SET_KEYS
  {
    if k == APP_ID then Some(targetAppId)
    else if k == INSTALL_DIR then Some(folderName)
    else if k == NAME then Some(if officialName != "" then officialName else folderName)
    else if k == STATE_FLAGS then Some("4")
    else if k == LAST_UPDATED then Some(unixTime)
    else if k in {SIZE_ON_DISK, BYTES_TO_DOWNLOAD, BYTES_DOWNLOADED, BYTES_TO_STAGE, BYTES_STAGED} then Some("0")
    else None
  }

  /** The first line of key `k` takes the value `v`; what every key reads changes only for `k`. */
  lemma {:induction false} SetFirstValue(fs: seq<Field>, k: Key, v: string, k': Key)
    ensures ValueOf(SetFirst(fs, k, v), k') == if k' == k && ValueOf(fs, k).Some? then Some(v) else ValueOf(fs, k')
  {
    if |fs| > 0 {
      if fs[0].key == k {
        assert ([Field(k, v)] + fs[1..])[1..] == fs[1..];
      } else {
        SetFirstValue(fs[1..], k, v, k');
        assert ([fs[0]] + SetFirst(fs[1..], k, v))[1..] == SetFirst(fs[1..], k, v);
      }
    }
  }

  /** Every line of key `k` takes the value `v`; what every key reads changes only for `k`. */
  lemma {:induction false} SetAllValue(fs: seq<Field>, k: Key, v: string, k': Key)
    ensures ValueOf(SetAll(fs, k, v), k') == if k' == k && ValueOf(fs, k).Some? then Some(v) else ValueOf(fs, k')
  {
    if |fs| > 0 {
      SetAllValue(fs[1..], k, v, k');
      assert SetAll(fs, k, v)[1..] == SetAll(fs[1..], k, v);
    }
  }

  /** Every key has a line. */
  predicate HasAllKeys(fs: seq<Field>) {
    forall k :: ValueOf(fs, k).Some?
  }

  lemma TemplateValues(unixTime: string, k: Key)
    ensures ValueOf(Template(unixTime), k) == Some(DefaultValue(k, unixTime))
  {
    ValueInOrder(Template(unixTime), k);
  }

  lemma SetKeepsAllKeys(fs: seq<Field>, k: Key, v: string)
    requires HasAllKeys(fs)
    ensures HasAllKeys(SetFirst(fs, k, v)) && HasAllKeys(SetAll(fs, k, v))
  {
    forall k' ensures ValueOf(SetFirst(fs, k, v), k').Some? && ValueOf(SetAll(fs, k, v), k').Some? {
      SetFirstValue(fs, k, v, k');
      SetAllValue(fs, k, v, k');
    }
  }

  /**
   * On a manifest with a line for every key, the replacements make every key
   * read its assigned value, and every key that is not assigned read what it did.
   */
  lemma FillValue(t: seq<Field>, folderName: string, targetAppId: string, officialName: string,
                  unixTime: string, k': Key)
    requires HasAllKeys(t)
    ensures ValueOf(Fill(t, folderName, targetAppId, officialName, unixTime), k')
         == match Assigned(k', folderName, targetAppId, officialName, unixTime)
            case Some(v) => Some(v)
            case None => ValueOf(t, k')
  {
    var f, a, o, u := folderName, targetAppId, officialName, unixTime;
    var nameToUse := if o != "" then o else f;
    var c1 := SetFirst(t, APP_ID, a);
    SetFirstValue(t, APP_ID, a, k');
    SetKeepsAllKeys(t, APP_ID, a);
    var c2 := SetFirst(c1, INSTALL_DIR, f);
    SetFirstValue(c1, INSTALL_DIR, f, k');
    SetKeepsAllKeys(c1, INSTALL_DIR, f);
    var c3 := SetFirst(c2, NAME, nameToUse);
    SetFirstValue(c2, NAME, nameToUse, k');
    SetKeepsAllKeys(c2, NAME, nameToUse);
    var c4 := SetFirst(c3, STATE_FLAGS, "4");
    SetFirstValue(c3, STATE_FLAGS, "4", k');
    SetKeepsAllKeys(c3, STATE_FLAGS, "4");
    var c5 := SetFirst(c4, LAST_UPDATED, u);
    SetFirstValue(c4, LAST_UPDATED, u, k');
    SetKeepsAllKeys(c4, LAST_UPDATED, u);
    var c6 := SetFirst(c5, SIZE_ON_DISK, "0");
    SetFirstValue(c5, SIZE_ON_DISK, "0", k');
    SetKeepsAllKeys(c5, SIZE_ON_DISK, "0");
    var c7 := SetAll(c6, BYTES_TO_DOWNLOAD, "0");
    SetAllValue(c6, BYTES_TO_DOWNLOAD, "0", k');
    SetKeepsAllKeys(c6, BYTES_TO_DOWNLOAD, "0");
    var c8 := SetAll(c7, BYTES_DOWNLOADED, "0");
    SetAllValue(c7, BYTES_DOWNLOADED, "0", k');
    SetKeepsAllKeys(c7, BYTES_DOWNLOADED, "0");
    var c9 := SetAll(c8, BYTES_TO_STAGE, "0");
    SetAllValue(c8, BYTES_TO_STAGE, "0", k');
    SetKeepsAllKeys(c8, BYTES_TO_STAGE, "0");
    SetAllValue(c9, BYTES_STAGED, "0", k');
  }

  /** The replacements keep every line's key, so the manifest keeps the template's order. */
  lemma FillKeys(t: seq<Field>, folderName: string, targetAppId: string, officialName: string, unixTime: string)
    ensures Keys(Fill(t, folderName, targetAppId, officialName, unixTime)) == Keys(t)
  {
  }

  /**
   * The manifest has the template's fields in the template's order; `appid`,
   * `installdir` and `name` carry the match, `StateFlags` is 4 (update
   * required), `LastUpdated` is the clock, the size and byte counters are 0,
   * and every other field keeps its template value.
   */
  lemma GeneratedFields(folderName: string, targetAppId: string, officialName: string, unixTime: string)
    ensures var r := GenerateAcfContent(folderName, targetAppId, officialName, unixTime);
      && Keys(r) == Keys(Template(unixTime))
      && (forall i :: 0 <= i < |r| && r[i].key !in SET_KEYS ==> r[i] == Template(unixTime)[i])
      && forall k :: ValueOf(r, k) == match Assigned(k, folderName, targetAppId, officialName, unixTime)
                                      case Some(v) => Some(v)
                                      case None => Some(DefaultValue(k, unixTime))
  {
    var t := Template(unixTime);
    var r := GenerateAcfContent(folderName, targetAppId, officialName, unixTime);
    assert HasAllKeys(t) by {
      forall k ensures ValueOf(t, k).Some? {
        TemplateValues(unixTime, k);
      }
    }
    FillKeys(t, folderName, targetAppId, officialName, unixTime);
    forall k ensures ValueOf(r, k) == match Assigned(k, folderName, targetAppId, officialName, unixTime)
                                      case Some(v) => Some(v)
                                      case None => Some(DefaultValue(k, unixTime))
    {
      FillValue(t, folderName, targetAppId, officialName, unixTime, k);
      TemplateValues(unixTime, k);
    }
    TemplateKeysUnique(unixTime);
    forall i | 0 <= i < |r| && r[i].key !in SET_KEYS ensures r[i] == t[i] {
      assert Keys(r)[i] == Keys(t)[i];
      assert UniqueKeys(r) by {
        forall i', j' | 0 <= i' < j' < |r| ensures r[i'].key != r[j'].key {
          assert Keys(r)[i'] == Keys(t)[i'] && Keys(r)[j'] == Keys(t)[j'];
        }
      }
      ValueOfAt(r, i);
      ValueOfAt(t, i);
      FillValue(t, folderName, targetAppId, officialName, unixTime, r[i].key);
    }
  }

  /** The values the manifest sets, key by key, and two it leaves at the template's. */
  lemma GeneratedValues(folderName: string, targetAppId: string, officialName: string, unixTime: string)
    ensures var r := GenerateAcfContent(folderName, targetAppId, officialName, unixTime);
      && ValueOf(r, APP_ID) == Some(targetAppId)
      && ValueOf(r, INSTALL_DIR) == Some(folderName)
      && ValueOf(r, NAME) == Some(if officialName != "" then officialName else folderName)
      && ValueOf(r, STATE_FLAGS) == Some("4")
      && ValueOf(r, LAST_UPDATED) == Some(unixTime)
      && ValueOf(r, SIZE_ON_DISK) == Some("0")
      && ValueOf(r, BYTES_TO_DOWNLOAD) == Some("0")
      && ValueOf(r, BYTES_DOWNLOADED) == Some("0")
      && ValueOf(r, BYTES_TO_STAGE) == Some("0")
      && ValueOf(r, BYTES_STAGED) == Some("0")
      && ValueOf(r, UNIVERSE) == Some("1")
      && ValueOf(r, BUILD_ID) == Some("1")
  {
    GeneratedFields(folderName, targetAppId, officialName, unixTime);
  }
}
