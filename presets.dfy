/** Difficulty presets of src/hooks/useSettings.ts. */
module Presets {

  datatype SettingsLevel = Beginner | Intermediate | Expert

  /** `ISettings`: the board is xFieldsCount wide and yFieldsCount high. */
  datatype Settings = Settings(
    level: SettingsLevel,
    fieldsInRow: nat,
    xFieldsCount: nat,
    yFieldsCount: nat,
    bombsCount: nat)

  /** `settingsSet`. */
  const SettingsSet: seq<Settings> := [
    Settings(Beginner, 8, 16, 8, 40),
    Settings(Intermediate, 16, 16, 16, 40),
    Settings(Expert, 22, 22, 22, 99)
  ]

  /** `table.find((s) => s.level === level) || fallback`: the first preset of the
      level, or the fallback when the table has none. */
  function FindByLevelOr(table: seq<Settings>, level: SettingsLevel, fallback: Settings): (r: Settings)
    ensures (exists i :: 0 <= i < |table| && table[i].level == level) ==>
      exists i :: 0 <= i < |table| && table[i] == r && r.level == level &&
        forall j :: 0 <= j < i ==> table[j].level != level
    ensures (forall i :: 0 <= i < |table| ==> table[i].level != level) ==> r == fallback
  {
    if table == [] then fallback
    else if table[0].level == level then table[0]
    else
      var r := FindByLevelOr(table[1..], level, fallback);
      assert forall i :: 1 <= i < |table| ==> table[i] == table[1..][i - 1];
      r
  }

  /** `getSettingsByLevel`: the preset of the level; every preset leaves more than
      nine fields free of mines, so the safe zone of the first click fits. */
  function GetSettingsByLevel(level: SettingsLevel): (r: Settings)
    ensures r.level == level && r in SettingsSet
    ensures r.bombsCount + 9 < r.xFieldsCount * r.yFieldsCount
    ensures level == Beginner ==> r.xFieldsCount == 16 && r.yFieldsCount == 8 && r.bombsCount == 40
    ensures level == Intermediate ==> r.xFieldsCount == 16 && r.yFieldsCount == 16 && r.bombsCount == 40
    ensures level == Expert ==> r.xFieldsCount == 22 && r.yFieldsCount == 22 && r.bombsCount == 99
  {
    var r := FindByLevelOr(SettingsSet, level, SettingsSet[0]);
    assert SettingsSet[0].level == Beginner && SettingsSet[1].level == Intermediate
      && SettingsSet[2].level == Expert;
    r
  }

  /** The `useSettings` hook: one `settings` state. */
  class SettingsStore {
    var settings: Settings

    constructor(initialLevel: SettingsLevel)
      ensures settings == GetSettingsByLevel(initialLevel)
    {
      settings := GetSettingsByLevel(initialLevel);
    }

    /** `setSettingsByLevel`. */
    method SetSettingsByLevel(level: SettingsLevel)
      modifies this
      ensures settings == GetSettingsByLevel(level)
    {
      settings := GetSettingsByLevel(level);
    }
  }
}
