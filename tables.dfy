/**
 * `time_slot_to_index` and `weekday_name_to_number`: the two lookup tables
 * of the live parser, with their fallbacks for unknown names.
 */
module Tables {

  /** The five big-period names, in order. */
  const SlotNames: seq<string> := ["第一大节", "第二大节", "第三大节", "第四大节", "第五大节"]

  /** The seven day names, Monday first. */
  const WeekdayNames: seq<string> := ["星期一", "星期二", "星期三", "星期四", "星期五", "星期六", "星期日"]

  /** The dictionary `time_slot_to_index` reads. */
  const SlotMapping: map<string, seq<int>> := map[
    "第一大节" := [1, 2], "第二大节" := [3, 4], "第三大节" := [5, 6], "第四大节" := [7, 8], "第五大节" := [9, 10]]

  /** The dictionary `weekday_name_to_number` reads. */
  const WeekdayMapping: map<string, int> := map[
    "星期一" := 1, "星期二" := 2, "星期三" := 3, "星期四" := 4, "星期五" := 5, "星期六" := 6, "星期日" := 7]

  /** `time_slot_to_index`: the `k`-th big period (from 1) covers periods `2k-1` and `2k`; unknown names give `[]`. */
  function TimeSlotToIndex(slot: string): (r: seq<int>)
    ensures r != [] <==> slot in SlotNames
    ensures forall k :: 0 <= k < |SlotNames| && slot == SlotNames[k] ==> r == [2 * k + 1, 2 * k + 2]
  {
    if slot in SlotMapping then SlotMapping[slot] else []
  }

  /** `weekday_name_to_number`: the `k`-th day name (from 1) gives `k`; unknown names give 0. */
  function WeekdayNameToNumber(name: string): (r: int)
    ensures 0 <= r <= 7
    ensures r != 0 <==> name in WeekdayNames
    ensures forall k :: 0 <= k < |WeekdayNames| && name == WeekdayNames[k] ==> r == k + 1
  {
    if name in WeekdayMapping then WeekdayMapping[name] else 0
  }

  /** A known weekday number names back its day. */
  lemma WeekdayNumberNamesDay(name: string)
    requires WeekdayNameToNumber(name) != 0
    ensures WeekdayNames[WeekdayNameToNumber(name) - 1] == name
  {
  }
}

/** The lookup tables of the older parser, which spell out the same dictionaries again. */
module LegacyTables {
  import Tables

  const LegacySlotMapping: map<string, seq<int>> := map[
    "第一大节" := [1, 2], "第二大节" := [3, 4], "第三大节" := [5, 6], "第四大节" := [7, 8], "第五大节" := [9, 10]]

  const LegacyWeekdayMapping: map<string, int> := map[
    "星期一" := 1, "星期二" := 2, "星期三" := 3, "星期四" := 4, "星期五" := 5, "星期六" := 6, "星期日" := 7]

  /** The older `time_slot_to_index`: it agrees with the live table on every name. */
  function LegacyTimeSlotToIndex(slot: string): (r: seq<int>)
    ensures r == Tables.TimeSlotToIndex(slot)
  {
    if slot in LegacySlotMapping then LegacySlotMapping[slot] else []
  }

  /** The older `weekday_name_to_number`: it agrees with the live table on every name. */
  function LegacyWeekdayNameToNumber(name: string): (r: int)
    ensures r == Tables.WeekdayNameToNumber(name)
  {
    if name in LegacyWeekdayMapping then LegacyWeekdayMapping[name] else 0
  }
}
