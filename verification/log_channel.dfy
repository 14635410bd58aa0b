/** `LogChannel` of `pyutils/logger.py`: a named channel of a logger that decorates its messages with
    the channel's display name, lays out column messages, and runs the callbacks registered for a
    level, its own and those shared by every channel of the same logger. The `logging` library
    itself is not modelled: a call to `Logger.log` becomes the record the method returns. */
module LogChannels {
  import opened Wrappers
  import opened Text
  import opened LogLevels

  /** `s[:stop]` with Python's reading of a negative `stop`. */
  function Prefix(s: string, stop: int): (r: string)
    ensures r <= s
    ensures stop >= 0 ==> |r| == if stop < |s| then stop else |s|
    ensures stop < 0 ==> |r| == if |s| + stop < 0 then 0 else |s| + stop
  {
    if stop >= |s| then s
    else if stop >= 0 then s[..stop]
    else if |s| + stop >= 0 then s[..|s| + stop]
    else []
  }

  /** `name_to_show` as the constructor sets it from the channel options `name_length` and
      `name_padding`: with a length of zero or more, exactly that many characters between the
      parentheses, the name cut to it or padded on the left up to it; with a negative length, the name
      less that many characters at its end; with no length, the name in parentheses, or nothing for an
      empty name. */
  function DisplayName(name: string, nameLength: Option<int>, padding: char): (r: string)
    ensures nameLength.Some? && nameLength.value >= 0 ==>
      var n := nameLength.value;
      && |r| == n + 2 && r[0] == '(' && r[n + 1] == ')'
      && (|name| > n ==> r[1..n + 1] == name[..n])
      && (|name| <= n ==> r[n + 1 - |name|..n + 1] == name &&
                          forall i :: 1 <= i <= n - |name| ==> r[i] == padding)
    ensures nameLength.Some? && nameLength.value < 0 ==>
      |r| >= 2 && r[0] == '(' && r[|r| - 1] == ')' && r[1..|r| - 1] <= name &&
      |r| - 2 == if |name| + nameLength.value < 0 then 0 else |name| + nameLength.value
    ensures nameLength.None? && name == [] ==> r == []
    ensures nameLength.None? && name != [] ==> r == "(" + name + ")"
  {
    match nameLength
    case Some(n) =>
      var inner := if |name| > n then Prefix(name, n) else RJust(name, n, padding);
      assert inner == (["("] + [inner] + [")"])[1];
      "(" + inner + ")"
    case None =>
      if name != [] then "(" + name + ")" else ""
  }

  /** `str(m).ljust(width)` for each message. */
  function Cells(msgs: seq<string>, width: int): (r: seq<string>)
    ensures |r| == |msgs|
    ensures forall i :: 0 <= i < |msgs| ==> r[i] == LJust(msgs[i], width, ' ')
  {
    if msgs == [] then [] else [LJust(msgs[0], width, ' ')] + Cells(msgs[1..], width)
  }

  /** The message `log_col` logs: with `sp = spliter + " "`, `sp + sp.join(cells)`. */
  function ColumnLine(msgs: seq<string>, width: int, spliter: string): (r: string)
    ensures spliter + " " <= r
  {
    var sp := spliter + " ";
    sp + Join(sp, Cells(msgs, width))
  }

  /** Every cell preceded by the separator, in order. */
  function Row(sp: string, cells: seq<string>): string {
    if cells == [] then [] else sp + cells[0] + Row(sp, cells[1..])
  }

  /** With at least one cell, a joined line is the row of separator-and-cell pairs. */
  lemma {:induction false} JoinIsRow(sp: string, cells: seq<string>)
    requires cells != []
    ensures sp + Join(sp, cells) == Row(sp, cells)
    decreases |cells|
  {
    if |cells| == 1 {
      assert Row(sp, cells[1..]) == [];
    } else {
      JoinCons(sp, cells[0], cells[1..]);
      assert [cells[0]] + cells[1..] == cells;
      JoinIsRow(sp, cells[1..]);
    }
  }

  /** The characters of `b` sit `|a|` further on in `a + b`. */
  lemma SliceAfter(a: string, b: string, x: nat, y: nat)
    requires x <= y <= |b|
    ensures (a + b)[|a| + x..|a| + y] == b[x..y]
  {
  }

  /** A row of cells all `width` wide has one `|sp| + width` long pair per cell. */
  lemma {:induction false} RowLength(sp: string, cells: seq<string>, width: nat)
    requires forall j :: 0 <= j < |cells| ==> |cells[j]| == width
    ensures |Row(sp, cells)| == |cells| * (|sp| + width)
    decreases |cells|
  {
    if cells != [] {
      RowLength(sp, cells[1..], width);
      var k := |sp| + width;
      assert |cells| * k == k + (|cells| - 1) * k;
    }
  }

  /** One more row of `k` characters ends `k` further on. */
  lemma MulNext(i: nat, k: nat)
    ensures (i + 1) * k == i * k + k
  {
  }

  /** Fewer rows of `k` characters end no further on. */
  lemma {:induction false} MulLe(a: nat, b: nat, k: nat)
    requires a <= b
    ensures a * k <= b * k
    decreases b - a
  {
    if a < b {
      MulLe(a, b - 1, k);
      MulNext(b - 1, k);
    }
  }

  /** In a row of cells all `width` wide, the pair at offset `i * (|sp| + width)` is the separator and
      cell `i`. */
  lemma {:induction false} RowAt(sp: string, cells: seq<string>, width: nat, i: nat)
    requires forall j :: 0 <= j < |cells| ==> |cells[j]| == width
    requires i < |cells|
    ensures |Row(sp, cells)| == |cells| * (|sp| + width)
    ensures var k := |sp| + width;
      (i + 1) * k <= |Row(sp, cells)| && Row(sp, cells)[i * k..(i + 1) * k] == sp + cells[i]
    decreases i
  {
    var k := |sp| + width;
    RowLength(sp, cells, width);
    MulNext(i, k);
    MulLe(i + 1, |cells|, k);
    var pair := sp + cells[0];
    var rest := Row(sp, cells[1..]);
    assert Row(sp, cells) == pair + rest;
    if i == 0 {
      assert (pair + rest)[..k] == pair;
    } else {
      RowAt(sp, cells[1..], width, i - 1);
      MulNext(i - 1, k);
      SliceAfter(pair, rest, (i - 1) * k, i * k);
    }
  }

  /** `log_col` lays its messages out in columns: when no message is wider than `width`, the line has
      one pair of separator and cell per message, each `|sp| + width` long, and the pair at offset
      `i * (|sp| + width)` is the separator followed by message `i` left-aligned in `width` spaces. */
  lemma ColumnLayout(msgs: seq<string>, width: nat, spliter: string, i: nat)
    requires forall j :: 0 <= j < |msgs| ==> |msgs[j]| <= width
    requires i < |msgs|
    ensures var sp := spliter + " "; var k := |sp| + width;
      var line := ColumnLine(msgs, width, spliter);
      && |line| == |msgs| * k
      && (i + 1) * k <= |line|
      && line[i * k..(i + 1) * k] == sp + LJust(msgs[i], width, ' ')
  {
    var sp := spliter + " ";
    var cells := Cells(msgs, width);
    assert forall j :: 0 <= j < |cells| ==> |cells[j]| == width;
    JoinIsRow(sp, cells);
    assert ColumnLine(msgs, width, spliter) == Row(sp, cells);
    RowAt(sp, cells, width, i);
  }

  /** A registered callable, known by its identity only. */
  datatype Callback = Callback(id: nat)

  /** A callbacks dictionary: level (or `None`, which `just_level` gives for an unknown name) to the
      callbacks registered for it, in registration order. */
  type Table = map<Option<int>, seq<Callback>>

  /** The callbacks a table holds for a level; a missing level holds none. */
  function Lookup(t: Table, key: Option<int>): seq<Callback> {
    if key in t then t[key] else []
  }

  /** `t.setdefault(key, [])`'s effect on the table: the level is present afterwards, and nothing a
      lookup sees has changed. */
  function SetDefault(t: Table, key: Option<int>): (r: Table)
    ensures key in r && r.Keys == t.Keys + {key}
    ensures forall k :: Lookup(r, k) == Lookup(t, k)
  {
    if key in t then t else t[key := []]
  }

  /** `t.setdefault(key, []).append(cb)`: the level's callbacks gain `cb` at the end; every other level
      keeps its own. */
  function Appended(t: Table, key: Option<int>, cb: Callback): (r: Table)
    ensures Lookup(r, key) == Lookup(t, key) + [cb]
    ensures forall k :: k != key ==> Lookup(r, k) == Lookup(t, k)
    ensures r.Keys == t.Keys + {key}
  {
    t[key := Lookup(t, key) + [cb]]
  }

  /** `t.setdefault(key, []).clear()`: the level holds no callbacks; every other level keeps its own. */
  function ClearedLevel(t: Table, key: Option<int>): (r: Table)
    ensures Lookup(r, key) == []
    ensures forall k :: k != key ==> Lookup(r, k) == Lookup(t, k)
    ensures r.Keys == t.Keys + {key}
  {
    t[key := []]
  }

  /** A callbacks dictionary as a shared object: one per channel, plus the one a logger shares between
      all of its channels. */
  class CallbackTable {
    var entries: Table

    constructor()
      ensures entries == map[]
    {
      entries := map[];
    }

    /** `setdefault(key, [])`, returning the list. */
    method SetDefaultList(key: Option<int>) returns (list: seq<Callback>)
      modifies this
      ensures list == Lookup(old(entries), key)
      ensures entries == SetDefault(old(entries), key)
    {
      entries := SetDefault(entries, key);
      list := entries[key];
    }

    /** `setdefault(key, []).append(cb)`. */
    method Append(key: Option<int>, cb: Callback)
      modifies this
      ensures entries == Appended(old(entries), key, cb)
    {
      entries := Appended(entries, key, cb);
    }

    /** `clear()`. */
    method Clear()
      modifies this
      ensures entries == map[]
    {
      entries := map[];
    }

    /** `setdefault(key, []).clear()`. */
    method ClearLevel(key: Option<int>)
      modifies this
      ensures entries == ClearedLevel(old(entries), key)
    {
      entries := ClearedLevel(entries, key);
    }
  }

  /** What one `Logger.log` call is given: the level, the message and the `channel` extra. */
  datatype Record = Record(level: int, msg: string, channel: string)

  /** The `ChannelOption` of a logger's option object: one object, shared by the logger and every
      channel it creates, so a change to it is seen by all of them. */
  class ChannelOption {
    var nameLength: Option<int>
    var displayName: bool
    var namePadding: char

    /** The defaults: no name length, names displayed, `.` as padding. */
    constructor()
      ensures nameLength.None? && displayName && namePadding == '.'
    {
      nameLength, displayName, namePadding := None, true, '.';
    }
  }

  class LogChannel {
    const name: string
    var enable: bool
    /** The logger's channel option, read again by every `log`. */
    const option: ChannelOption
    const nameToShow: string
    const callbacks: CallbackTable
    const globalCallbacks: CallbackTable

    /** A new, enabled channel with no callbacks of its own, sharing the logger's option and global
        callbacks; the name shown is computed once, from the option as it is now. */
    constructor(name: string, option: ChannelOption, globalCallbacks: CallbackTable)
      ensures this.name == name && enable && this.option == option
      ensures nameToShow == DisplayName(name, option.nameLength, option.namePadding)
      ensures fresh(callbacks) && callbacks.entries == map[]
      ensures this.globalCallbacks == globalCallbacks
    {
      this.name := name;
      enable := true;
      this.option := option;
      nameToShow := DisplayName(name, option.nameLength, option.namePadding);
      callbacks := new CallbackTable();
      this.globalCallbacks := globalCallbacks;
    }

    /** `log`: a disabled channel does nothing. An enabled one hands the message to the logger with its
        display name (or nothing when the shared option, as it is at the call, does not display
        names), then runs the level's own callbacks
        and then the level's global ones, in registration order; both tables gain the level. */
    method Log(msg: string, level: int) returns (record: Option<Record>, invoked: seq<Callback>)
      modifies callbacks, globalCallbacks
      ensures !enable ==> record.None? && invoked == [] && unchanged(callbacks, globalCallbacks)
      ensures enable ==> record == Some(Record(level, msg, if option.displayName then nameToShow else ""))
      ensures enable ==> invoked == Lookup(old(callbacks.entries), Some(level)) +
                                   Lookup(old(globalCallbacks.entries), Some(level))
      ensures enable ==> callbacks.entries == SetDefault(old(callbacks.entries), Some(level))
      ensures enable ==> globalCallbacks.entries == SetDefault(old(globalCallbacks.entries), Some(level))
    {
      if !enable {
        return None, [];
      }
      record := Some(Record(level, msg, if option.displayName then nameToShow else ""));
      var own := callbacks.SetDefaultList(Some(level));
      var shared := globalCallbacks.SetDefaultList(Some(level));
      invoked := own + shared;
    }

    /** `log_col`: a disabled channel does nothing; an enabled one logs the column line. */
    method LogCol(msgs: seq<string>, width: int, spliter: string, level: int)
      returns (record: Option<Record>, invoked: seq<Callback>)
      modifies callbacks, globalCallbacks
      ensures !enable ==> record.None? && invoked == [] && unchanged(callbacks, globalCallbacks)
      ensures enable ==> record == Some(Record(level, ColumnLine(msgs, width, spliter),
                                               if option.displayName then nameToShow else ""))
      ensures enable ==> invoked == Lookup(old(callbacks.entries), Some(level)) +
                                   Lookup(old(globalCallbacks.entries), Some(level))
      ensures enable ==> callbacks.entries == SetDefault(old(callbacks.entries), Some(level))
      ensures enable ==> globalCallbacks.entries == SetDefault(old(globalCallbacks.entries), Some(level))
    {
      if !enable {
        return None, [];
      }
      record, invoked := Log(ColumnLine(msgs, width, spliter), level);
    }

    /** `add_log_callback`: `cb` joins the end of the callbacks of `just_level(level)`. */
    method AddLogCallback(level: LevelArg, cb: Callback)
      modifies callbacks
      ensures callbacks.entries == Appended(old(callbacks.entries), JustLevel(level), cb)
    {
      callbacks.Append(JustLevel(level), cb);
    }

    /** `clear_log_callbacks`: with no level every level loses its callbacks; with a level only
        `just_level(level)` does. */
    method ClearLogCallbacks(level: Option<LevelArg>)
      modifies callbacks
      ensures level.None? ==> callbacks.entries == map[]
      ensures level.Some? ==> callbacks.entries == ClearedLevel(old(callbacks.entries), JustLevel(level.value))
    {
      if level.None? {
        callbacks.Clear();
      } else {
        callbacks.ClearLevel(JustLevel(level.value));
      }
    }
  }

  /** `info` and `Info` both name `INFO`. */
  lemma InfoSpellings()
    ensures JustLevel(Name("info")) == Some(INFO) && JustLevel(Name("Info")) == Some(INFO)
  {
    assert SameLetters("info", "INFO");
    JustLevelIgnoresCase("info", "INFO");
    assert SameLetters("Info", "INFO");
    JustLevelIgnoresCase("Info", "INFO");
  }

  /** Callbacks registered for a level by name and by number land in the same list, and logging at
      that level runs them in registration order, then the ones the logger shares. */
  method SharedLevelList(own1: Callback, own2: Callback, shared: Callback)
    returns (invoked: seq<Callback>, record: Option<Record>)
    ensures invoked == [own1, own2, shared]
    ensures record == Some(Record(INFO, "ready", "(net)"))
  {
    InfoSpellings();
    var global := new CallbackTable();
    global.Append(Some(INFO), shared);
    var option := new ChannelOption();
    var channel := new LogChannel("net", option, global);
    assert channel.nameToShow == "(net)";
    channel.AddLogCallback(Name("info"), own1);
    channel.AddLogCallback(Num(INFO), own2);
    assert Lookup(channel.callbacks.entries, Some(INFO)) == [own1, own2];
    assert Lookup(global.entries, Some(INFO)) == [shared];
    record, invoked := channel.Log("ready", INFO);
  }

  /** Clearing a level by a name in another case removes the channel's own callbacks for it but not
      the shared ones, and a disabled channel logs nothing and runs nothing. */
  method ClearThenDisable(own: Callback, shared: Callback)
    returns (afterClear: seq<Callback>, whenDisabled: seq<Callback>, silent: Option<Record>)
    ensures afterClear == [shared]
    ensures whenDisabled == [] && silent.None?
  {
    InfoSpellings();
    var global := new CallbackTable();
    global.Append(Some(INFO), shared);
    var option := new ChannelOption();
    var channel := new LogChannel("net", option, global);
    channel.AddLogCallback(Num(INFO), own);
    channel.ClearLogCallbacks(Some(Name("Info")));
    assert Lookup(channel.callbacks.entries, Some(INFO)) == [];
    assert Lookup(global.entries, Some(INFO)) == [shared];
    var record;
    record, afterClear := channel.Log("again", INFO);
    channel.enable := false;
    silent, whenDisabled := channel.Log("quiet", INFO);
  }

  /** `display_name` is read from the shared option at each call: turning it off after two channels
      exist removes the name from the records of both. */
  method DisplayNameShared() returns (before: Option<Record>, first: Option<Record>, second: Option<Record>)
    ensures before == Some(Record(INFO, "up", "(net)"))
    ensures first == Some(Record(INFO, "down", "")) && second == Some(Record(INFO, "down", ""))
  {
    var global := new CallbackTable();
    var option := new ChannelOption();
    var net := new LogChannel("net", option, global);
    var disk := new LogChannel("disk", option, global);
    assert net.nameToShow == "(net)";
    var invoked;
    before, invoked := net.Log("up", INFO);
    option.displayName := false;
    first, invoked := net.Log("down", INFO);
    second, invoked := disk.Log("down", INFO);
  }
}
