/**
  * nsjail configurations as the messages that are printed, and what a reader who looks fields up by name makes of
  * such a message.
  */
module NsjailMessage {
  import opened Wrappers
  import opened TextFormat

  // ----- Rows of a message -----

  /** A field that a message has or leaves out. */
  datatype Row = Row(name: string, present: bool, value: Value)

  function Present(row: Row): seq<Field> {
    if row.present then [Field(row.name, row.value)] else []
  }

  /** The message: its present rows, in order. */
  function FieldsOf(rows: seq<Row>): seq<Field> {
    if rows == [] then [] else FieldsOf(rows[..|rows| - 1]) + Present(rows[|rows| - 1])
  }

  lemma OneMoreRow(rows: seq<Row>, row: Row)
    ensures FieldsOf(rows + [row]) == FieldsOf(rows) + Present(row)
  {
    assert (rows + [row])[..|rows|] == rows;
  }

  // ----- Configurations and their messages -----

  datatype MountPt = MountPt(src: string, dst: string, fstype: string, rw: bool, isBind: bool)

  datatype Macvlan = Macvlan(iface: string, ip: string, netmask: string, gateway: string, mac: string)

  /** `mode` 1 is ModeListen; every other value prints as ONCE. Numbers are unsigned in the source. */
  datatype Config = Config(
    mode: int, chroot: string, log: string, hostname: string, cwd: string, user: string,
    timeLimit: nat, disableCloneNewUser: bool, disableCloneNewNet: bool, cloneNewTime: bool, cgroupMemMax: nat,
    rlimitAS: nat, rlimitCore: nat, rlimitCPU: nat, rlimitFsize: nat,
    rlimitNofile: nat, rlimitNproc: nat, rlimitStack: nat,
    envar: seq<string>, mounts: seq<MountPt>, seccompString: string,
    macvlan: Option<Macvlan>, usePasta: bool, listenPort: nat)

  const TRUE := I("true")
  const FALSE := I("false")

  function ModeWord(c: Config): string {
    if c.mode == 1 then "LISTEN" else "ONCE"
  }

  function HeadRows(c: Config): seq<Row> {
    [ Row("mode", true, I(ModeWord(c))),
      Row("log_file", true, S(c.log)),
      Row("hostname", c.hostname != "", S(c.hostname)),
      Row("cwd", c.cwd != "", S(c.cwd)),
      Row("time_limit", c.timeLimit > 0, N(c.timeLimit)) ]
  }

  function CloneRows(c: Config): seq<Row> {
    [ Row("clone_newuser", c.disableCloneNewUser, FALSE),
      Row("clone_newnet", c.disableCloneNewNet, FALSE),
      Row("clone_newtime", c.cloneNewTime, TRUE) ]
  }

  function LimitRows(c: Config): seq<Row> {
    [ Row("cgroup_mem_max", c.cgroupMemMax > 0, N(c.cgroupMemMax)),
      Row("rlimit_as", c.rlimitAS > 0, N(c.rlimitAS)),
      Row("rlimit_core", c.rlimitCore > 0, N(c.rlimitCore)),
      Row("rlimit_cpu", c.rlimitCPU > 0, N(c.rlimitCPU)),
      Row("rlimit_fsize", c.rlimitFsize > 0, N(c.rlimitFsize)),
      Row("rlimit_nofile", c.rlimitNofile > 0, N(c.rlimitNofile)),
      Row("rlimit_nproc", c.rlimitNproc > 0, N(c.rlimitNproc)),
      Row("rlimit_stack", c.rlimitStack > 0, N(c.rlimitStack)) ]
  }

  function IdRows(user: string): seq<Row> {
    [Row("inside_id", true, S(user)), Row("outside_id", true, S("")), Row("count", true, N(1))]
  }

  function UserRows(c: Config): seq<Row> {
    [ Row("uidmap", c.user != "", M(FieldsOf(IdRows(c.user)))), Row("gidmap", c.user != "", M(FieldsOf(IdRows(c.user)))) ]
  }

  function EnvarRows(envar: seq<string>): seq<Row> {
    seq(|envar|, i requires 0 <= i < |envar| => Row("envar", true, S(envar[i])))
  }

  /** The fields of one mount; empty strings and false flags are left out, the destination never is. */
  function MountFields(m: MountPt): seq<Row> {
    [ Row("src", m.src != "", S(m.src)),
      Row("dst", true, S(m.dst)),
      Row("fstype", m.fstype != "", S(m.fstype)),
      Row("rw", m.rw, TRUE),
      Row("is_bind", m.isBind, TRUE) ]
  }

  /** The root file system is a bind mount of its own, in front of all others. */
  function RootRow(c: Config): Row {
    Row("mount", c.chroot != "", M(FieldsOf(MountFields(MountPt(c.chroot, "/", "", false, true)))))
  }

  function MountRows(mounts: seq<MountPt>): seq<Row> {
    seq(|mounts|, i requires 0 <= i < |mounts| => Row("mount", true, M(FieldsOf(MountFields(mounts[i])))))
  }

  function NetRows(c: Config): seq<Row> {
    var some := c.macvlan.Some?;
    var m := if some then c.macvlan.value else Macvlan("", "", "", "", "");
    [ Row("seccomp_string", c.seccompString != "", S(c.seccompString)),
      Row("iface_vs", some, S(m.iface)),
      Row("iface_vs_ip", some && m.ip != "", S(m.ip)),
      Row("iface_vs_nm", some && m.netmask != "", S(m.netmask)),
      Row("iface_vs_gw", some && m.gateway != "", S(m.gateway)),
      Row("iface_vs_ma", some && m.mac != "", S(m.mac)) ]
  }

  function TailRows(c: Config): seq<Row> {
    [ Row("use_pasta", c.usePasta, TRUE),
      Row("port", c.listenPort > 0, N(c.listenPort)) ]
  }

  function AllRows(c: Config): seq<Row> {
    HeadRows(c) + CloneRows(c) + LimitRows(c) + UserRows(c) + EnvarRows(c.envar)
    + [RootRow(c)] + MountRows(c.mounts) + NetRows(c) + TailRows(c)
  }

  /** The abstract nsjail message of a configuration. */
  function MessageOf(c: Config): seq<Field> {
    FieldsOf(AllRows(c))
  }

  // ----- Repeated fields -----

  /** The values a reader collects under one name. */
  function ValuesOf(fs: seq<Field>, name: string): seq<Value> {
    if fs == [] then []
    else ValuesOf(fs[..|fs| - 1], name) + (if fs[|fs| - 1].name == name then [fs[|fs| - 1].value] else [])
  }

  function Named(rows: seq<Row>, name: string): seq<Value> {
    ValuesOf(FieldsOf(rows), name)
  }

  lemma NamedOneMore(rows: seq<Row>, row: Row, name: string)
    ensures Named(rows + [row], name)
         == Named(rows, name) + (if row.present && row.name == name then [row.value] else [])
  {
    OneMoreRow(rows, row);
    var fs := FieldsOf(rows);
    if row.present {
      assert (fs + [Field(row.name, row.value)])[..|fs|] == fs;
    } else {
      assert fs + [] == fs;
    }
  }

  lemma {:induction false} NamedAppend(rows: seq<Row>, more: seq<Row>, name: string)
    ensures Named(rows + more, name) == Named(rows, name) + Named(more, name)
    decreases |more|
  {
    hide Named;
    if more == [] {
      assert rows + more == rows;
      assert Named([], name) == [] by { NothingNamed([], name); }
    } else {
      var (init, last) := (more[..|more| - 1], more[|more| - 1]);
      assert rows + more == rows + init + [last] && more == init + [last];
      NamedOneMore(rows + init, last, name);
      NamedOneMore(init, last, name);
      NamedAppend(rows, init, name);
    }
  }

  lemma {:induction false} NothingNamed(rows: seq<Row>, name: string)
    requires forall i | 0 <= i < |rows| :: rows[i].name != name
    ensures Named(rows, name) == []
  {
    if rows != [] {
      var init := rows[..|rows| - 1];
      assert rows == init + [rows[|rows| - 1]];
      NothingNamed(init, name);
      NamedOneMore(init, rows[|rows| - 1], name);
    }
  }

  lemma {:induction false} AllNamed(rows: seq<Row>, name: string)
    requires forall i | 0 <= i < |rows| :: rows[i].present && rows[i].name == name
    ensures |Named(rows, name)| == |rows| && forall i | 0 <= i < |rows| :: Named(rows, name)[i] == rows[i].value
  {
    if rows != [] {
      var init := rows[..|rows| - 1];
      assert rows == init + [rows[|rows| - 1]];
      AllNamed(init, name);
      NamedOneMore(init, rows[|rows| - 1], name);
    }
  }

  lemma OtherTables(c: Config, name: string)
    requires name == "envar" || name == "mount"
    ensures Named(HeadRows(c), name) == [] && Named(CloneRows(c), name) == [] && Named(LimitRows(c), name) == []
    ensures Named(UserRows(c), name) == [] && Named(NetRows(c), name) == [] && Named(TailRows(c), name) == []
  {
    hide Named;
    NothingNamed(HeadRows(c), name);
    NothingNamed(CloneRows(c), name);
    NothingNamed(LimitRows(c), name);
    NothingNamed(UserRows(c), name);
    NothingNamed(NetRows(c), name);
    NothingNamed(TailRows(c), name);
  }

  /** Only the middle of the message has environment entries and mounts. */
  lemma MiddleOfMessage(c: Config, name: string)
    requires name == "envar" || name == "mount"
    ensures ValuesOf(MessageOf(c), name) == Named(EnvarRows(c.envar) + [RootRow(c)] + MountRows(c.mounts), name)
  {
    hide Named, HeadRows, CloneRows, LimitRows, UserRows, EnvarRows, RootRow, MountRows, NetRows, TailRows;
    hide ValuesOf, FieldsOf;
    OtherTables(c, name);
    var front := HeadRows(c) + CloneRows(c) + LimitRows(c) + UserRows(c);
    var middle := EnvarRows(c.envar) + [RootRow(c)] + MountRows(c.mounts);
    assert AllRows(c) == front + middle + NetRows(c) + TailRows(c);
    SkipBefore(HeadRows(c), CloneRows(c), name);
    SkipBefore(HeadRows(c) + CloneRows(c), LimitRows(c), name);
    SkipBefore(HeadRows(c) + CloneRows(c) + LimitRows(c), UserRows(c), name);
    SkipBefore(front, middle, name);
    SkipAfter(front + middle, NetRows(c), name);
    SkipAfter(front + middle + NetRows(c), TailRows(c), name);
    NamedIs(AllRows(c), name);
  }

  lemma SkipBefore(rows: seq<Row>, more: seq<Row>, name: string)
    requires Named(rows, name) == []
    ensures Named(rows + more, name) == Named(more, name)
  {
    hide Named;
    NamedAppend(rows, more, name);
  }

  lemma SkipAfter(rows: seq<Row>, more: seq<Row>, name: string)
    requires Named(more, name) == []
    ensures Named(rows + more, name) == Named(rows, name)
  {
    hide Named;
    NamedAppend(rows, more, name);
  }

  lemma NamedIs(rows: seq<Row>, name: string)
    ensures ValuesOf(FieldsOf(rows), name) == Named(rows, name)
  {
  }

  /** A reader collects exactly the configured environment entries, in order. */
  lemma EnvarsInOrder(c: Config)
    ensures ValuesOf(MessageOf(c), "envar") == seq(|c.envar|, i requires 0 <= i < |c.envar| => S(c.envar[i]))
  {
    hide Named, ValuesOf, MessageOf, FieldsOf;
    MiddleOfMessage(c, "envar");
    NamedAppend(EnvarRows(c.envar) + [RootRow(c)], MountRows(c.mounts), "envar");
    NamedAppend(EnvarRows(c.envar), [RootRow(c)], "envar");
    NothingNamed([RootRow(c)], "envar");
    NothingNamed(MountRows(c.mounts), "envar");
    AllNamed(EnvarRows(c.envar), "envar");
  }

  function MountValue(m: MountPt): Value {
    M(FieldsOf(MountFields(m)))
  }

  /** A reader collects the root file system first, then the configured mounts in order. */
  lemma RootMountsFirst(c: Config)
    ensures ValuesOf(MessageOf(c), "mount")
         == (if c.chroot != "" then [MountValue(MountPt(c.chroot, "/", "", false, true))] else [])
            + seq(|c.mounts|, i requires 0 <= i < |c.mounts| => MountValue(c.mounts[i]))
  {
    hide Named, ValuesOf, MessageOf, FieldsOf, MountFields;
    MiddleOfMessage(c, "mount");
    NamedAppend(EnvarRows(c.envar) + [RootRow(c)], MountRows(c.mounts), "mount");
    NamedAppend(EnvarRows(c.envar), [RootRow(c)], "mount");
    NothingNamed(EnvarRows(c.envar), "mount");
    NothingNamed([], "mount");
    NamedOneMore([], RootRow(c), "mount");
    assert [] + [RootRow(c)] == [RootRow(c)];
    AllNamed(MountRows(c.mounts), "mount");
  }

  // ----- Fields by name -----

  const NAMES: seq<string> :=
    [ "mode", "log_file", "hostname", "cwd", "time_limit", "clone_newuser", "clone_newnet", "clone_newtime",
      "cgroup_mem_max", "rlimit_as", "rlimit_core", "rlimit_cpu", "rlimit_fsize", "rlimit_nofile", "rlimit_nproc", "rlimit_stack",
      "uidmap", "gidmap", "seccomp_string",
      "iface_vs", "iface_vs_ip", "iface_vs_nm", "iface_vs_gw", "iface_vs_ma",
      "use_pasta", "port" ]

  /** The rows of fields that occur at most once. */
  function ScalarRows(c: Config): seq<Row> {
    HeadRows(c) + CloneRows(c) + LimitRows(c) + UserRows(c) + NetRows(c) + TailRows(c)
  }

  /** The rows have the names from the `k`-th on. */
  predicate NamedFrom(rows: seq<Row>, k: nat) {
    k + |rows| <= |NAMES| && forall i | 0 <= i < |rows| :: rows[i].name == NAMES[k + i]
  }

  lemma NamedFromJoins(a: seq<Row>, b: seq<Row>, k: nat)
    requires NamedFrom(a, k) && NamedFrom(b, k + |a|)
    ensures NamedFrom(a + b, k)
  {
    hide NAMES;
  }

  lemma FrontNames(c: Config)
    ensures |HeadRows(c)| == 5 && NamedFrom(HeadRows(c), 0)
    ensures |CloneRows(c)| == 3 && NamedFrom(CloneRows(c), 5)
    ensures |LimitRows(c)| == 8 && NamedFrom(LimitRows(c), 8)
  {
  }

  lemma BackNames(c: Config)
    ensures |UserRows(c)| == 2 && NamedFrom(UserRows(c), 16)
    ensures |NetRows(c)| == 6 && NamedFrom(NetRows(c), 18)
    ensures |TailRows(c)| == 2 && NamedFrom(TailRows(c), 24)
  {
    hide FieldsOf;
  }

  lemma RowNames(c: Config)
    ensures |ScalarRows(c)| == 26 && NamedFrom(ScalarRows(c), 0)
  {
    hide HeadRows, CloneRows, LimitRows, UserRows, NetRows, TailRows, NamedFrom;
    FrontNames(c);
    BackNames(c);
    NamedFromJoins(HeadRows(c), CloneRows(c), 0);
    NamedFromJoins(HeadRows(c) + CloneRows(c), LimitRows(c), 0);
    NamedFromJoins(HeadRows(c) + CloneRows(c) + LimitRows(c), UserRows(c), 0);
    NamedFromJoins(HeadRows(c) + CloneRows(c) + LimitRows(c) + UserRows(c), NetRows(c), 0);
    NamedFromJoins(HeadRows(c) + CloneRows(c) + LimitRows(c) + UserRows(c) + NetRows(c), TailRows(c), 0);
  }

  lemma DistinctNames()
    ensures forall i, j | 0 <= i < j < |NAMES| :: NAMES[i] != NAMES[j]
    ensures forall i | 0 <= i < |NAMES| :: NAMES[i] != "envar" && NAMES[i] != "mount"
  {
  }

  /** A name that one row has and no other. */
  lemma OneNamed(rows: seq<Row>, i: nat)
    requires i < |rows| && forall j | 0 <= j < |rows| && j != i :: rows[j].name != rows[i].name
    ensures Named(rows, rows[i].name) == if rows[i].present then [rows[i].value] else []
  {
    hide Named;
    var name := rows[i].name;
    var before, after := rows[..i], rows[i + 1..];
    assert rows == before + [rows[i]] + after;
    NothingNamed(before, name);
    NothingNamed(after, name);
    NamedOneMore(before, rows[i], name);
    NamedAppend(before + [rows[i]], after, name);
  }

  /** Environment entries and mounts do not matter to the other names. */
  lemma ScalarsOfMessage(c: Config, name: string)
    requires name != "envar" && name != "mount"
    ensures ValuesOf(MessageOf(c), name) == Named(ScalarRows(c), name)
  {
    hide Named, HeadRows, CloneRows, LimitRows, UserRows, NetRows, TailRows, FieldsOf;
    var front, back := HeadRows(c) + CloneRows(c) + LimitRows(c) + UserRows(c), NetRows(c) + TailRows(c);
    var middle := EnvarRows(c.envar) + [RootRow(c)] + MountRows(c.mounts);
    NothingNamed(middle, name);
    assert AllRows(c) == front + middle + back && ScalarRows(c) == front + back;
    NamedAppend(front, middle, name);
    NamedAppend(front + middle, back, name);
    NamedAppend(front, back, name);
    NamedIs(AllRows(c), name);
  }

  lemma ScalarByIndex(c: Config, i: nat)
    requires i < 26
    ensures |ScalarRows(c)| == 26 && |NAMES| == 26
    ensures ValuesOf(MessageOf(c), NAMES[i])
         == if ScalarRows(c)[i].present then [ScalarRows(c)[i].value] else []
  {
    hide Named, ValuesOf, MessageOf, ScalarRows;
    RowNames(c);
    DistinctNames();
    ScalarsOfMessage(c, NAMES[i]);
    OneNamed(ScalarRows(c), i);
  }

  function Once(row: Row): seq<Value> {
    if row.present then [row.value] else []
  }

  lemma TableByName(c: Config, before: seq<Row>, rows: seq<Row>, after: seq<Row>)
    requires ScalarRows(c) == before + rows + after
    ensures forall j | 0 <= j < |rows| :: ValuesOf(MessageOf(c), rows[j].name) == Once(rows[j])
  {
    hide ValuesOf, MessageOf, ScalarRows;
    RowNames(c);
    forall j | 0 <= j < |rows| ensures ValuesOf(MessageOf(c), rows[j].name) == Once(rows[j]) {
      ScalarByIndex(c, |before| + j);
      assert ScalarRows(c)[|before| + j] == rows[j];
    }
  }

  /** A text that is left out if it is empty. */
  function Text(s: string): seq<Value> {
    if s != "" then [S(s)] else []
  }

  /** A number that is left out if it is zero. */
  function Number(n: nat): seq<Value> {
    if n > 0 then [N(n)] else []
  }

  /** A word that is there only if the flag is set. */
  function Flag(there: bool, word: string): seq<Value> {
    if there then [I(word)] else []
  }

  /** What a reader finds under each name, from the configuration alone. */
  lemma HeadByName(c: Config)
    ensures ValuesOf(MessageOf(c), "mode") == [I(if c.mode == 1 then "LISTEN" else "ONCE")]
    ensures ValuesOf(MessageOf(c), "log_file") == [S(c.log)]
    ensures ValuesOf(MessageOf(c), "hostname") == Text(c.hostname)
    ensures ValuesOf(MessageOf(c), "cwd") == Text(c.cwd)
    ensures ValuesOf(MessageOf(c), "time_limit") == Number(c.timeLimit)
  {
    hide ValuesOf, MessageOf, CloneRows, LimitRows, UserRows, NetRows, TailRows;
    var rows, after := HeadRows(c), CloneRows(c) + LimitRows(c) + UserRows(c) + NetRows(c) + TailRows(c);
    assert ScalarRows(c) == [] + rows + after;
    TableByName(c, [], rows, after);
    assert forall j | 0 <= j < 5 :: ValuesOf(MessageOf(c), rows[j].name) == Once(rows[j]);
    assert rows[0].name == "mode" && rows[1].name == "log_file" && rows[2].name == "hostname";
    assert rows[3].name == "cwd" && rows[4].name == "time_limit";
  }

  lemma ClonesByName(c: Config)
    ensures ValuesOf(MessageOf(c), "clone_newuser") == Flag(c.disableCloneNewUser, "false")
    ensures ValuesOf(MessageOf(c), "clone_newnet") == Flag(c.disableCloneNewNet, "false")
    ensures ValuesOf(MessageOf(c), "clone_newtime") == Flag(c.cloneNewTime, "true")
  {
    hide ValuesOf, MessageOf, HeadRows, LimitRows, UserRows, NetRows, TailRows;
    var rows, after := CloneRows(c), LimitRows(c) + UserRows(c) + NetRows(c) + TailRows(c);
    assert ScalarRows(c) == HeadRows(c) + rows + after;
    TableByName(c, HeadRows(c), rows, after);
    assert rows[0].name == "clone_newuser" && rows[1].name == "clone_newnet" && rows[2].name == "clone_newtime";
  }

  lemma LimitsByName(c: Config)
    ensures ValuesOf(MessageOf(c), "cgroup_mem_max") == Number(c.cgroupMemMax)
    ensures ValuesOf(MessageOf(c), "rlimit_as") == Number(c.rlimitAS)
    ensures ValuesOf(MessageOf(c), "rlimit_core") == Number(c.rlimitCore)
    ensures ValuesOf(MessageOf(c), "rlimit_cpu") == Number(c.rlimitCPU)
    ensures ValuesOf(MessageOf(c), "rlimit_fsize") == Number(c.rlimitFsize)
    ensures ValuesOf(MessageOf(c), "rlimit_nofile") == Number(c.rlimitNofile)
    ensures ValuesOf(MessageOf(c), "rlimit_nproc") == Number(c.rlimitNproc)
    ensures ValuesOf(MessageOf(c), "rlimit_stack") == Number(c.rlimitStack)
  {
    hide ValuesOf, MessageOf, HeadRows, CloneRows, UserRows, NetRows, TailRows;
    var before, rows, after := HeadRows(c) + CloneRows(c), LimitRows(c), UserRows(c) + NetRows(c) + TailRows(c);
    assert ScalarRows(c) == before + rows + after;
    TableByName(c, before, rows, after);
    assert rows[0].name == "cgroup_mem_max" && rows[1].name == "rlimit_as" && rows[2].name == "rlimit_core";
    assert rows[3].name == "rlimit_cpu" && rows[4].name == "rlimit_fsize" && rows[5].name == "rlimit_nofile";
    assert rows[6].name == "rlimit_nproc" && rows[7].name == "rlimit_stack";
  }

  /** The id map of a user: that user inside, the caller outside, one id. */
  function IdMap(user: string): seq<Value> {
    if user == "" then []
    else [M([Field("inside_id", S(user)), Field("outside_id", S("")), Field("count", N(1))])]
  }

  lemma IdFields(user: string)
    ensures FieldsOf(IdRows(user)) == [Field("inside_id", S(user)), Field("outside_id", S("")), Field("count", N(1))]
  {
    var rows := IdRows(user);
    assert rows == [] + [rows[0]] + [rows[1]] + [rows[2]];
    OneMoreRow([], rows[0]);
    OneMoreRow([] + [rows[0]], rows[1]);
    OneMoreRow([] + [rows[0]] + [rows[1]], rows[2]);
  }

  lemma UsersByName(c: Config)
    ensures ValuesOf(MessageOf(c), "uidmap") == IdMap(c.user)
    ensures ValuesOf(MessageOf(c), "gidmap") == IdMap(c.user)
  {
    hide ValuesOf, MessageOf, FieldsOf, HeadRows, CloneRows, LimitRows, NetRows, TailRows, IdRows;
    IdFields(c.user);
    var before, rows, after := HeadRows(c) + CloneRows(c) + LimitRows(c), UserRows(c), NetRows(c) + TailRows(c);
    assert ScalarRows(c) == before + rows + after;
    TableByName(c, before, rows, after);
    assert rows[0].name == "uidmap" && rows[1].name == "gidmap";
  }

  lemma NetByName(c: Config)
    ensures ValuesOf(MessageOf(c), "seccomp_string") == Text(c.seccompString)
    ensures ValuesOf(MessageOf(c), "iface_vs") == (if c.macvlan.Some? then [S(c.macvlan.value.iface)] else [])
    ensures ValuesOf(MessageOf(c), "iface_vs_ip") == (if c.macvlan.Some? then Text(c.macvlan.value.ip) else [])
    ensures ValuesOf(MessageOf(c), "iface_vs_nm") == (if c.macvlan.Some? then Text(c.macvlan.value.netmask) else [])
    ensures ValuesOf(MessageOf(c), "iface_vs_gw") == (if c.macvlan.Some? then Text(c.macvlan.value.gateway) else [])
    ensures ValuesOf(MessageOf(c), "iface_vs_ma") == (if c.macvlan.Some? then Text(c.macvlan.value.mac) else [])
  {
    hide ValuesOf, MessageOf, HeadRows, CloneRows, LimitRows, UserRows, TailRows;
    var before, rows := HeadRows(c) + CloneRows(c) + LimitRows(c) + UserRows(c), NetRows(c);
    assert ScalarRows(c) == before + rows + TailRows(c);
    TableByName(c, before, rows, TailRows(c));
    assert rows[0].name == "seccomp_string" && rows[1].name == "iface_vs" && rows[2].name == "iface_vs_ip";
    assert rows[3].name == "iface_vs_nm" && rows[4].name == "iface_vs_gw" && rows[5].name == "iface_vs_ma";
  }

  lemma TailByName(c: Config)
    ensures ValuesOf(MessageOf(c), "use_pasta") == Flag(c.usePasta, "true")
    ensures ValuesOf(MessageOf(c), "port") == Number(c.listenPort)
  {
    hide ValuesOf, MessageOf, HeadRows, CloneRows, LimitRows, UserRows, NetRows;
    var before, rows := HeadRows(c) + CloneRows(c) + LimitRows(c) + UserRows(c) + NetRows(c), TailRows(c);
    assert ScalarRows(c) == before + rows + [];
    TableByName(c, before, rows, []);
    assert rows[0].name == "use_pasta" && rows[1].name == "port";
  }

  /** What a reader finds under each name inside a mount. */
  lemma MountByName(m: MountPt)
    ensures var fs := FieldsOf(MountFields(m));
            && ValuesOf(fs, "src") == Text(m.src)
            && ValuesOf(fs, "dst") == [S(m.dst)]
            && ValuesOf(fs, "fstype") == Text(m.fstype)
            && ValuesOf(fs, "rw") == Flag(m.rw, "true")
            && ValuesOf(fs, "is_bind") == Flag(m.isBind, "true")
  {
    var rows := MountFields(m);
    MountNamesDiffer(m);
    hide ValuesOf, FieldsOf, Named;
    forall i | 0 <= i < 5 ensures ValuesOf(FieldsOf(rows), rows[i].name) == Once(rows[i]) {
      OneNamed(rows, i);
      NamedIs(rows, rows[i].name);
    }
    assert rows[0].name == "src" && rows[1].name == "dst" && rows[2].name == "fstype";
    assert rows[3].name == "rw" && rows[4].name == "is_bind";
  }

  lemma MountNamesDiffer(m: MountPt)
    ensures |MountFields(m)| == 5
    ensures forall i, j | 0 <= i < 5 && 0 <= j < 5 && i != j :: MountFields(m)[i].name != MountFields(m)[j].name
  {
  }

  // ----- A reader that knows the names -----

  function TextIn(fs: seq<Field>, name: string): string {
    var vs := ValuesOf(fs, name);
    if vs != [] && vs[0].S? then vs[0].text else ""
  }

  function NumberIn(fs: seq<Field>, name: string): nat {
    var vs := ValuesOf(fs, name);
    if vs != [] && vs[0].N? then vs[0].n else 0
  }

  predicate Says(fs: seq<Field>, name: string, word: string) {
    ValuesOf(fs, name) == [I(word)]
  }

  function MountOf(v: Value): MountPt {
    if !v.M? then MountPt("", "", "", false, false)
    else MountPt(TextIn(v.fields, "src"), TextIn(v.fields, "dst"), TextIn(v.fields, "fstype"),
                 Says(v.fields, "rw", "true"), Says(v.fields, "is_bind", "true"))
  }

  function MountsOf(vs: seq<Value>): seq<MountPt> {
    if vs == [] then [] else [MountOf(vs[0])] + MountsOf(vs[1..])
  }

  function TextsOf(vs: seq<Value>): seq<string> {
    if vs == [] then [] else [if vs[0].S? then vs[0].text else ""] + TextsOf(vs[1..])
  }

  function UserOf(fs: seq<Field>): string {
    var vs := ValuesOf(fs, "uidmap");
    if vs != [] && vs[0].M? then TextIn(vs[0].fields, "inside_id") else ""
  }

  function MacvlanOf(fs: seq<Field>): Option<Macvlan> {
    if ValuesOf(fs, "iface_vs") == [] then None
    else Some(Macvlan(TextIn(fs, "iface_vs"), TextIn(fs, "iface_vs_ip"), TextIn(fs, "iface_vs_nm"),
                      TextIn(fs, "iface_vs_gw"), TextIn(fs, "iface_vs_ma")))
  }

  /** The configuration a message stands for; a root file system is just its first mount. */
  function Rebuild(fs: seq<Field>): Config {
    Config(if Says(fs, "mode", "LISTEN") then 1 else 0, "", TextIn(fs, "log_file"), TextIn(fs, "hostname"),
           TextIn(fs, "cwd"), UserOf(fs), NumberIn(fs, "time_limit"),
           Says(fs, "clone_newuser", "false"), Says(fs, "clone_newnet", "false"), Says(fs, "clone_newtime", "true"),
           NumberIn(fs, "cgroup_mem_max"), NumberIn(fs, "rlimit_as"), NumberIn(fs, "rlimit_core"),
           NumberIn(fs, "rlimit_cpu"), NumberIn(fs, "rlimit_fsize"), NumberIn(fs, "rlimit_nofile"),
           NumberIn(fs, "rlimit_nproc"), NumberIn(fs, "rlimit_stack"),
           TextsOf(ValuesOf(fs, "envar")), MountsOf(ValuesOf(fs, "mount")), TextIn(fs, "seccomp_string"),
           MacvlanOf(fs), Says(fs, "use_pasta", "true"), NumberIn(fs, "port"))
  }

  /** The configuration with its root file system as the first mount and its mode as one of two. */
  function Canonical(c: Config): Config {
    c.(mode := if c.mode == 1 then 1 else 0, chroot := "",
       mounts := (if c.chroot != "" then [MountPt(c.chroot, "/", "", false, true)] else []) + c.mounts)
  }

  lemma {:induction false} TextsReadBack(texts: seq<string>, vs: seq<Value>)
    requires |vs| == |texts| && forall i | 0 <= i < |vs| :: vs[i] == S(texts[i])
    ensures TextsOf(vs) == texts
  {
    if vs != [] {
      TextsReadBack(texts[1..], vs[1..]);
      assert texts == [texts[0]] + texts[1..];
    }
  }

  lemma MountReadsBack(m: MountPt)
    ensures MountOf(MountValue(m)) == m
  {
    hide ValuesOf, FieldsOf, MountFields;
    MountByName(m);
  }

  lemma {:induction false} MountsReadBack(mounts: seq<MountPt>, vs: seq<Value>)
    requires |vs| == |mounts| && forall i | 0 <= i < |vs| :: vs[i] == MountValue(mounts[i])
    ensures MountsOf(vs) == mounts
  {
    hide MountOf, MountValue;
    if vs != [] {
      MountReadsBack(mounts[0]);
      MountsReadBack(mounts[1..], vs[1..]);
      assert mounts == [mounts[0]] + mounts[1..];
    }
  }

  lemma UserReadsBack(c: Config)
    ensures UserOf(MessageOf(c)) == c.user
  {
    hide MessageOf;
    UsersByName(c);
    if c.user != "" {
      var f, g, h := Field("inside_id", S(c.user)), Field("outside_id", S("")), Field("count", N(1));
      assert ValuesOf([], "inside_id") == [];
      assert [f, g, h][..2] == [f, g] && [f, g][..1] == [f] && [f][..0] == [];
      assert ValuesOf([f], "inside_id") == [S(c.user)];
      assert ValuesOf([f, g], "inside_id") == [S(c.user)];
      assert ValuesOf([f, g, h], "inside_id") == [S(c.user)];
    }
  }

  lemma ListsReadBack(c: Config)
    ensures TextsOf(ValuesOf(MessageOf(c), "envar")) == c.envar
    ensures MountsOf(ValuesOf(MessageOf(c), "mount")) == Canonical(c).mounts
  {
    hide ValuesOf, MessageOf, MountValue;
    EnvarsInOrder(c);
    TextsReadBack(c.envar, ValuesOf(MessageOf(c), "envar"));
    RootMountsFirst(c);
    MountsReadBack(Canonical(c).mounts, ValuesOf(MessageOf(c), "mount"));
  }

  lemma MacvlanReadsBack(c: Config)
    ensures MacvlanOf(MessageOf(c)) == c.macvlan
  {
    hide ValuesOf, MessageOf;
    NetByName(c);
  }

  /** A reader gets the whole configuration back. */
  lemma RebuildUndoes(c: Config)
    ensures Rebuild(MessageOf(c)) == Canonical(c)
  {
    hide ValuesOf, MessageOf, MountsOf, TextsOf, UserOf, MacvlanOf;
    HeadByName(c);
    ClonesByName(c);
    LimitsByName(c);
    NetByName(c);
    TailByName(c);
    UserReadsBack(c);
    ListsReadBack(c);
    MacvlanReadsBack(c);
  }
}
