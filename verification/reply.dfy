/**
  The structured value tree of one GDB/MI reply, as the actions read it.

  A reply line such as `^done,bkpt={number="7",line="12"}` arrives already parsed into
  a result class and a `Value`.  The actions only ever read that tree through the few
  accessors below: the members of a tuple or list, a dotted-path lookup that descends
  tuples by member name (`"bkpt.number"`), and typed lookups that read a leaf as text or
  as a decimal integer.  Decimal formatting (`%d`) lives here too, because the command
  strings embed numbers that a later reply or command must read back.
*/
module Reply {

  datatype Option<+T> = None | Some(value: T) {
    /** The wrapped value, or `default` when there is none. */
    function GetOr(default: T): T {
      match this
      case Some(v) => v
      case None => default
    }
  }

  /** The classification of a reply line: `^done`, `^running`, `^connected`, `^error`, `^exit`. */
  datatype ResultClass = Done | Running | Connected | Error | Exit

  /**
    One node of a reply.  A list of results (`stack=[frame={..},frame={..}]`) and a tuple
    both keep the name of each element; a list of plain values has empty names.
  */
  datatype Value = Simple(text: string) | Tuple(members: seq<Member>) | Array(members: seq<Member>)
  datatype Member = Member(name: string, value: Value)

  /** What the transport delivers for one command: its class and its value tree. */
  datatype Result = Result(cls: ResultClass, value: Value)

  /** The ordered elements of a tuple or a list (size and by-index access); a leaf has none. */
  function Entries(v: Value): seq<Member> {
    if v.Simple? then [] else v.members
  }

  function FieldIn(ms: seq<Member>, name: string): (r: Option<Value>)
    ensures r.Some? ==> exists i :: 0 <= i < |ms| && ms[i] == Member(name, r.value)
    ensures r.Some? ==> r.value < Tuple(ms)
    ensures r.None? ==> forall m <- ms :: m.name != name
  {
    if ms == [] then None
    else if ms[0].name == name then Some(ms[0].value)
    else
      var r := FieldIn(ms[1..], name);
      assert r.Some? ==> r.value < Tuple(ms[1..]);
      assert forall m <- ms[1..] :: m in ms;
      r
  }

  /** The first member of a tuple with the given name; lists and leaves have no named fields. */
  function Field(v: Value, name: string): (r: Option<Value>)
    ensures r.Some? <==> v.Tuple? && exists m <- v.members :: m.name == name
    ensures r.Some? ==> Member(name, r.value) in v.members
  {
    if v.Tuple? then FieldIn(v.members, name) else None
  }

  /** The member found is the first one with that name. */
  lemma {:induction false} FieldAt(ms: seq<Member>, k: nat, name: string)
    requires k < |ms| && ms[k].name == name
    requires forall j :: 0 <= j < k ==> ms[j].name != name
    ensures Field(Tuple(ms), name) == Some(ms[k].value)
  {
    if k > 0 {
      FieldAt(ms[1..], k - 1, name);
    }
  }

  /** Cuts a dotted path into its segments: `"frame.level"` becomes `["frame", "level"]`. */
  function Split(path: string): (r: seq<string>)
    ensures |r| >= 1
    ensures forall seg <- r :: '.' !in seg
  {
    if path == [] then [""]
    else
      var rest := Split(path[1..]);
      if path[0] == '.' then [""] + rest else [[path[0]] + rest[0]] + rest[1..]
  }

  /** Glues segments back together with dots; the inverse of `Split`. */
  function Join(segs: seq<string>): string
    requires |segs| >= 1
  {
    if |segs| == 1 then segs[0] else segs[0] + "." + Join(segs[1..])
  }

  lemma {:induction false} JoinSplit(path: string)
    ensures Join(Split(path)) == path
  {
    if path != [] {
      JoinSplit(path[1..]);
      var rest := Split(path[1..]);
      if path[0] == '.' {
        assert path == "." + path[1..];
      } else if |rest| == 1 {
        assert path == [path[0]] + path[1..];
      } else {
        assert [[path[0]] + rest[0]] + rest[1..] == [[path[0]] + rest[0]] + rest[1..];
        assert ([[path[0]] + rest[0]] + rest[1..])[1..] == rest[1..];
        assert path == [path[0]] + path[1..];
      }
    }
  }

  lemma {:induction false} SplitPlain(seg: string)
    requires '.' !in seg
    ensures Split(seg) == [seg]
  {
    if seg != [] {
      SplitPlain(seg[1..]);
      assert [seg[0]] + seg[1..] == seg;
    }
  }

  lemma {:induction false} SplitDotted(seg: string, rest: string)
    requires '.' !in seg
    ensures Split(seg + "." + rest) == [seg] + Split(rest)
  {
    if seg == [] {
      assert seg + "." + rest == "." + rest;
      assert ("." + rest)[1..] == rest;
    } else {
      SplitDotted(seg[1..], rest);
      var p := seg + "." + rest;
      assert p[0] == seg[0];
      assert p[1..] == seg[1..] + "." + rest;
      assert [seg[0]] + seg[1..] == seg;
    }
  }

  lemma {:induction false} SplitJoin(segs: seq<string>)
    requires |segs| >= 1 && forall seg <- segs :: '.' !in seg
    ensures Split(Join(segs)) == segs
  {
    if |segs| == 1 {
      SplitPlain(segs[0]);
    } else {
      assert forall seg <- segs[1..] :: seg in segs;
      SplitJoin(segs[1..]);
      SplitDotted(segs[0], Join(segs[1..]));
      assert [segs[0]] + segs[1..] == segs;
    }
  }

  /** Follows a sequence of member names down through nested tuples. */
  function Descend(v: Value, segs: seq<string>): (r: Option<Value>)
    decreases |segs|
  {
    if segs == [] then Some(v)
    else match Field(v, segs[0])
      case None => None
      case Some(c) => Descend(c, segs[1..])
  }

  /** `GetTupleValue`: the node at a dotted path, or nothing when some segment is absent or not a tuple. */
  function GetTupleValue(v: Value, path: string): Option<Value> {
    Descend(v, Split(path))
  }

  /** A dotted lookup is a lookup of the first segment followed by a lookup of the rest. */
  lemma DottedLookup(v: Value, seg: string, rest: string)
    requires '.' !in seg
    ensures GetTupleValue(v, seg + "." + rest) ==
      match Field(v, seg)
      case None => None
      case Some(c) => GetTupleValue(c, rest)
  {
    SplitDotted(seg, rest);
    assert ([seg] + Split(rest))[1..] == Split(rest);
  }

  /** A path without a dot names one member of a tuple. */
  lemma PlainLookup(v: Value, seg: string)
    requires '.' !in seg
    ensures GetTupleValue(v, seg) == Field(v, seg)
  {
    SplitPlain(seg);
    match Field(v, seg)
    case None =>
    case Some(c) =>
      assert [seg][1..] == [];
      assert Descend(v, [seg]) == Descend(c, []);
  }

  /** `Lookup(value, path, wxString&)`: the text of the leaf at `path`. */
  function LookupString(v: Value, path: string): (r: Option<string>)
    ensures r.Some? <==> GetTupleValue(v, path).Some? && GetTupleValue(v, path).value.Simple?
  {
    match GetTupleValue(v, path)
    case Some(Simple(t)) => Some(t)
    case _ => None
  }

  /** `Lookup(value, path, int&)`: the leaf at `path` read as a base-10 integer. */
  function LookupInt(v: Value, path: string): Option<int> {
    match LookupString(v, path)
    case Some(t) => ParseInt(t)
    case None => None
  }

  /** The text of a leaf. */
  function LeafText(v: Option<Value>): Option<string> {
    match v
    case Some(Simple(t)) => Some(t)
    case _ => None
  }

  /** `Lookup` of a single member name: the text of that member of a tuple. */
  function FieldString(v: Value, key: string): (r: Option<string>)
    ensures r.Some? ==> v.Tuple? && Member(key, Simple(r.value)) in v.members
  {
    LeafText(Field(v, key))
  }

  /** `Lookup` of a single member name, read as a base-10 integer. */
  function FieldInt(v: Value, key: string): Option<int> {
    match FieldString(v, key)
    case Some(t) => ParseInt(t)
    case None => None
  }

  /** For a name without a dot, the single-member lookups agree with the dotted-path lookups. */
  lemma FieldLookup(v: Value, key: string)
    requires '.' !in key
    ensures FieldString(v, key) == LookupString(v, key)
    ensures FieldInt(v, key) == LookupInt(v, key)
  {
    PlainLookup(v, key);
  }

  // ---------------------------------------------------------------------------------
  // Decimal integers: `wxString::ToLong(&n, 10)` and `wxString::Format("%d", n)`.

  predicate IsDigit(c: char) {
    '0' <= c <= '9'
  }

  predicate AllDigits(s: string) {
    forall c <- s :: IsDigit(c)
  }

  function DigitChar(d: nat): (c: char)
    requires d < 10
    ensures IsDigit(c)
  {
    (48 + d) as char
  }

  function DigitsValue(s: string): nat
    requires AllDigits(s)
  {
    if s == [] then 0
    else
      assert forall c <- s[..|s| - 1] :: c in s;
      assert IsDigit(s[|s| - 1]) by { assert s[|s| - 1] in s; }
      DigitsValue(s[..|s| - 1]) * 10 + ((s[|s| - 1] as int) - ('0' as int))
  }

  function NatToDigits(n: nat): (r: string)
    ensures |r| >= 1 && AllDigits(r)
  {
    if n < 10 then [DigitChar(n)] else NatToDigits(n / 10) + [DigitChar(n % 10)]
  }

  /** `%d`: an optional minus sign followed by the decimal digits. */
  function FormatInt(n: int): (r: string)
    ensures |r| >= 1
    ensures forall c <- r :: IsDigit(c) || c == '-'
  {
    if n < 0 then "-" + NatToDigits(-n) else NatToDigits(n)
  }

  /** `ToLong(&n, 10)`: an optional sign and at least one decimal digit, and nothing else. */
  function ParseInt(s: string): Option<int> {
    if |s| >= 2 && s[0] == '-' && AllDigits(s[1..]) then Some(0 - DigitsValue(s[1..]))
    else if |s| >= 2 && s[0] == '+' && AllDigits(s[1..]) then Some(DigitsValue(s[1..]))
    else if |s| >= 1 && AllDigits(s) then Some(DigitsValue(s))
    else None
  }

  lemma {:induction false} DigitsRoundTrip(n: nat)
    ensures DigitsValue(NatToDigits(n)) == n
  {
    if n >= 10 {
      DigitsRoundTrip(n / 10);
      var s := NatToDigits(n);
      assert s[..|s| - 1] == NatToDigits(n / 10);
    }
  }

  /** Every number the commands embed reads back as itself. */
  lemma FormatParse(n: int)
    ensures ParseInt(FormatInt(n)) == Some(n)
  {
    if n < 0 {
      DigitsRoundTrip(-n);
      assert FormatInt(n)[1..] == NatToDigits(-n);
    } else {
      DigitsRoundTrip(n);
      var s := NatToDigits(n);
      assert IsDigit(s[0]) by { assert s[0] in s; }
    }
  }
}
