/** The observable contract of a typed configuration entry, as the entry tests
    exercise it: an entry of stored type int, double or string is either a
    *Var* entry, which keeps its own copy of the value it was built from, or a
    *Linked* entry, which reads and writes a host variable it is bound to.
    Both carry a name, a description and the temporary/built-in flags.
    The numeric text conversions (parsing a number from text, printing one) are
    parameters, as `Codec`; storing a double into an int truncates toward zero. */
module ConfigEntries {

  /** The C++ type the entry stores. */
  datatype StoredType = IntType | DoubleType | StringType

  /** A stored value; its constructor is its type. */
  datatype Native = IntVal(i: int) | DoubleVal(d: real) | StrVal(s: string)
  {
    function Kind(): StoredType
    {
      match this
      case IntVal(_) => IntType
      case DoubleVal(_) => DoubleType
      case StrVal(_) => StringType
    }
  }

  /** Text to number and number to text, as the entry's string conversions do them. */
  datatype Codec = Codec(parse: string -> real, show: real -> string)

  /** Conversion of a double to an int, truncating toward zero. */
  function Trunc(x: real): (r: int)
    ensures x >= 0.0 ==> r as real <= x < r as real + 1.0
    ensures x < 0.0 ==> r as real - 1.0 < x <= r as real
  {
    if x >= 0.0 then x.Floor else -((-x).Floor)
  }

  // ---------------------------------------------------------------------------
  // Type queries.

  predicate IsNumericType(k: StoredType) { k == IntType || k == DoubleType }

  /** The name the entry reports for its type. */
  function TypeName(k: StoredType): (r: string)
    ensures r == "Value" <==> IsNumericType(k)
    ensures r == "String" <==> k == StringType
  {
    if k == StringType then "String" else "Value"
  }

  // ---------------------------------------------------------------------------
  // Reading and writing a stored value.

  /** `AsDouble` of a stored value. */
  function ToDouble(v: Native, c: Codec): (r: real)
    ensures v.DoubleVal? ==> r == v.d
    ensures v.IntVal? ==> r == v.i as real
    ensures v.StrVal? ==> r == c.parse(v.s)
  {
    match v
    case IntVal(i) => i as real
    case DoubleVal(d) => d
    case StrVal(s) => c.parse(s)
  }

  /** `AsString` of a stored value. */
  function ToText(v: Native, c: Codec): (r: string)
    ensures v.StrVal? ==> r == v.s
    ensures !v.StrVal? ==> r == c.show(ToDouble(v, c))
  {
    match v
    case IntVal(i) => c.show(i as real)
    case DoubleVal(d) => c.show(d)
    case StrVal(s) => s
  }

  /** What `SetValue(x)` stores into storage of type `k`. */
  function FromDouble(k: StoredType, x: real, c: Codec): (r: Native)
    ensures r.Kind() == k
    ensures k == DoubleType ==> r == DoubleVal(x)
    ensures k == IntType ==> r == IntVal(Trunc(x))
    ensures k == StringType ==> r == StrVal(c.show(x))
  {
    match k
    case IntType => IntVal(Trunc(x))
    case DoubleType => DoubleVal(x)
    case StringType => StrVal(c.show(x))
  }

  /** What `SetString(s)` stores into storage of type `k`. */
  function FromText(k: StoredType, s: string, c: Codec): (r: Native)
    ensures r.Kind() == k
    ensures k == StringType ==> r == StrVal(s)
    ensures k == DoubleType ==> r == DoubleVal(c.parse(s))
    ensures k == IntType ==> r == IntVal(Trunc(c.parse(s)))
  {
    match k
    case IntType => IntVal(Trunc(c.parse(s)))
    case DoubleType => DoubleVal(c.parse(s))
    case StringType => StrVal(s)
  }

  /** `SetValue(x)` then `AsDouble()` gives `x` back whenever the stored type can
      hold it: always for a double, for a whole number in an int, and in a
      string when printing and parsing `x` round-trips. */
  lemma {:induction false} SetValueThenAsDouble(k: StoredType, x: real, c: Codec)
    requires k == IntType ==> x == x.Floor as real
    requires k == StringType ==> c.parse(c.show(x)) == x
    ensures ToDouble(FromDouble(k, x, c), c) == x
  {
    if k == IntType {
      assert Trunc(x) == x.Floor;
    }
  }

  /** `SetString(s)` then `AsString()` gives `s` back for string storage, and for
      numeric storage whenever `s` is the printed form of what it parses to. */
  lemma {:induction false} SetStringThenAsString(k: StoredType, s: string, c: Codec)
    requires k == IntType ==> c.parse(s) == c.parse(s).Floor as real && c.show(c.parse(s)) == s
    requires k == DoubleType ==> c.show(c.parse(s)) == s
    ensures ToText(FromText(k, s, c), c) == s
  {
    if k == IntType {
      assert Trunc(c.parse(s)) == c.parse(s).Floor;
    }
  }

  // ---------------------------------------------------------------------------
  // The host side.

  /** A host variable an entry can be bound to; its type never changes. */
  class HostVar {
    const kind: StoredType
    var val: Native

    ghost predicate Valid()
      reads this
    {
      val.Kind() == kind
    }

    constructor (v: Native)
      ensures Valid() && kind == v.Kind() && val == v
    {
      kind := v.Kind();
      val := v;
    }

    /** An assignment by the host, as in `v = 1;`. */
    method Set(v: Native)
      requires Valid() && v.Kind() == kind
      modifies this
      ensures Valid() && val == v
    {
      val := v;
    }
  }

  // ---------------------------------------------------------------------------
  // The entry.

  /** A typed entry. `link` is null for a Var entry, which keeps its value in
      `own`; a Linked entry keeps nothing itself and goes through `link`. */
  class ConfigEntry {
    var name: string
    var desc: string
    var temporary: bool
    var builtin: bool
    var own: Native
    const link: HostVar?
    const kind: StoredType
    const codec: Codec

    ghost predicate Valid()
      reads this, link
    {
      && own.Kind() == kind
      && (link != null ==> link.Valid() && link.kind == kind)
    }

    /** The value the entry stands for: its own copy, or the host variable's. */
    function Stored(): (v: Native)
      reads this, link
      requires Valid()
      ensures v.Kind() == kind
    {
      if link == null then own else link.val
    }

    /** A Var entry holding a copy of `v`. */
    constructor Var(name: string, v: Native, desc: string, codec: Codec)
      ensures Valid() && link == null && kind == v.Kind() && Stored() == v
      ensures this.name == name && this.desc == desc && this.codec == codec
      ensures !temporary && !builtin
    {
      this.name := name;
      this.desc := desc;
      this.codec := codec;
      temporary := false;
      builtin := false;
      own := v;
      link := null;
      kind := v.Kind();
    }

    /** A Linked entry bound to the host variable `host`. */
    constructor Linked(name: string, host: HostVar, desc: string, codec: Codec)
      requires host.Valid()
      ensures Valid() && link == host && kind == host.kind && Stored() == host.val
      ensures this.name == name && this.desc == desc && this.codec == codec
      ensures !temporary && !builtin
    {
      this.name := name;
      this.desc := desc;
      this.codec := codec;
      temporary := false;
      builtin := false;
      own := host.val;
      link := host;
      kind := host.kind;
    }

    function GetName(): string reads this { name }
    function GetDesc(): string reads this { desc }
    function IsTemporary(): bool reads this { temporary }
    function IsBuiltIn(): bool reads this { builtin }

    /** A Var entry is local; a Linked one is not. */
    function IsLocal(): (r: bool)
      reads this
      ensures r <==> link == null
    {
      link == null
    }

    function IsNumeric(): bool reads this { IsNumericType(kind) }
    function IsInt(): bool reads this { kind == IntType }
    function IsDouble(): bool reads this { kind == DoubleType }
    function IsString(): bool reads this { kind == StringType }
    function IsBool(): bool reads this { false }
    function IsFunction(): bool reads this { false }
    function IsError(): bool reads this { false }
    function GetTypename(): string reads this { TypeName(kind) }

    function AsDouble(): (r: real)
      reads this, link
      requires Valid()
      ensures r == ToDouble(Stored(), codec)
    {
      ToDouble(if link == null then own else link.val, codec)
    }

    function AsString(): (r: string)
      reads this, link
      requires Valid()
      ensures r == ToText(Stored(), codec)
    {
      ToText(if link == null then own else link.val, codec)
    }

    method SetName(n: string)
      requires Valid()
      modifies this
      ensures Valid() && name == n && Stored() == old(Stored())
      ensures desc == old(desc) && temporary == old(temporary) && builtin == old(builtin)
    {
      name := n;
    }

    method SetDesc(d: string)
      requires Valid()
      modifies this
      ensures Valid() && desc == d && Stored() == old(Stored())
      ensures name == old(name) && temporary == old(temporary) && builtin == old(builtin)
    {
      desc := d;
    }

    method SetTemporary()
      requires Valid()
      modifies this
      ensures Valid() && temporary && Stored() == old(Stored())
      ensures name == old(name) && desc == old(desc) && builtin == old(builtin)
    {
      temporary := true;
    }

    method SetBuiltIn()
      requires Valid()
      modifies this
      ensures Valid() && builtin && Stored() == old(Stored())
      ensures name == old(name) && desc == old(desc) && temporary == old(temporary)
    {
      builtin := true;
    }

    /** Stores `x`, converted to the stored type: into the host variable for a
        Linked entry, into the entry's own copy for a Var entry. */
    method SetValue(x: real)
      requires Valid()
      modifies this, link
      ensures Valid() && Stored() == FromDouble(kind, x, codec)
      ensures link == null ==> own == FromDouble(kind, x, codec)
      ensures link != null ==> link.val == FromDouble(kind, x, codec)
      ensures name == old(name) && desc == old(desc)
      ensures temporary == old(temporary) && builtin == old(builtin)
    {
      if link == null {
        own := FromDouble(kind, x, codec);
      } else {
        link.val := FromDouble(kind, x, codec);
      }
    }

    /** Stores the text `s`, converted to the stored type, where `SetValue` would. */
    method SetString(s: string)
      requires Valid()
      modifies this, link
      ensures Valid() && Stored() == FromText(kind, s, codec)
      ensures link == null ==> own == FromText(kind, s, codec)
      ensures link != null ==> link.val == FromText(kind, s, codec)
      ensures name == old(name) && desc == old(desc)
      ensures temporary == old(temporary) && builtin == old(builtin)
    {
      if link == null {
        own := FromText(kind, s, codec);
      } else {
        link.val := FromText(kind, s, codec);
      }
    }
  }

  // ---------------------------------------------------------------------------
  // The entry tests as methods: each builds its own host variable and entry.

  /** Linked entry over an int variable: a later host assignment shows through
      `AsDouble` and `AsString`, and `SetValue`/`SetString` write the variable. */
  method LinkedIntTracksVariable(c: Codec) returns (first: real, firstText: string, afterHost: real,
                                                   afterHostText: string, hostAfterSet: Native,
                                                   hostAfterText: Native)
    requires c.parse("3") == 3.0 && c.show(0.0) == "0" && c.show(1.0) == "1"
    ensures first == 0.0 && firstText == "0" && afterHost == 1.0 && afterHostText == "1"
    ensures hostAfterSet == IntVal(2) && hostAfterText == IntVal(3)
  {
    var v := new HostVar(IntVal(0));
    var e := new ConfigEntry.Linked("name00", v, "variable00", c);
    first := e.AsDouble();
    firstText := e.AsString();
    v.Set(IntVal(1));
    afterHost := e.AsDouble();
    afterHostText := e.AsString();
    e.SetValue(2.0);
    hostAfterSet := v.val;
    e.SetString("3");
    hostAfterText := v.val;
  }

  /** Linked entry over a string variable: a host assignment shows through,
      `SetValue(2.0)` stores the printed form "2" in the variable, and
      `SetString` stores its text unchanged. */
  method LinkedStringWritesText(c: Codec) returns (afterHost: string, afterSet: real, hostAfterSet: Native,
                                                  hostAfterText: Native)
    requires c.show(2.0) == "2" && c.parse("2") == 2.0
    ensures afterHost == "1" && afterSet == 2.0
    ensures hostAfterSet == StrVal("2") && hostAfterText == StrVal("3")
  {
    var v := new HostVar(StrVal("0"));
    var e := new ConfigEntry.Linked("name00", v, "variable00", c);
    v.Set(StrVal("1"));
    afterHost := e.AsString();
    e.SetValue(2.0);
    afterSet := e.AsDouble();
    hostAfterSet := v.val;
    e.SetString("3");
    hostAfterText := v.val;
  }

  /** Var entry over an int: it keeps the value it was built from after the
      host variable changes, and its setters change its own copy and leave the
      host variable alone. */
  method VarIntIsSnapshot(c: Codec) returns (afterHost: real, afterSet: real, afterText: string,
                                             hostAfterSet: Native)
    requires c.parse("3") == 3.0 && c.show(3.0) == "3"
    ensures afterHost == 0.0 && afterSet == 2.0 && afterText == "3" && hostAfterSet == IntVal(1)
  {
    var v := new HostVar(IntVal(0));
    var e := new ConfigEntry.Var("name00", v.val, "variable00", c);
    v.Set(IntVal(1));
    afterHost := e.AsDouble();
    e.SetValue(2.0);
    afterSet := e.AsDouble();
    e.SetString("3");
    afterText := e.AsString();
    hostAfterSet := v.val;
  }

  /** Var entry over a string: the same snapshot behaviour as for an int. */
  method VarStringIsSnapshot(c: Codec) returns (afterHost: string, afterSet: real, afterText: string,
                                                hostAfterSet: Native)
    requires c.parse(c.show(2.0)) == 2.0
    ensures afterHost == "0" && afterSet == 2.0 && afterText == "3" && hostAfterSet == StrVal("1")
  {
    var v := new HostVar(StrVal("0"));
    var e := new ConfigEntry.Var("name00", v.val, "variable00", c);
    v.Set(StrVal("1"));
    afterHost := e.AsString();
    e.SetValue(2.0);
    afterSet := e.AsDouble();
    e.SetString("3");
    afterText := e.AsString();
    hostAfterSet := v.val;
  }

  /** A fresh entry of either kind has both flags clear, reports its type as
      the tests expect, and its setters replace exactly what the getters
      return. */
  method FlagsAndNames(v: Native, linked: bool, c: Codec)
    returns (typename: string, numeric: bool, isInt: bool, isDouble: bool, local: bool,
             freshTemp: bool, freshBuiltIn: bool, temp: bool, builtIn: bool, name: string, desc: string)
    ensures typename == (if v.StrVal? then "String" else "Value")
    ensures numeric == !v.StrVal? && isInt == v.IntVal? && isDouble == v.DoubleVal?
    ensures numeric ==> isInt != isDouble
    ensures local == !linked
    ensures !freshTemp && !freshBuiltIn && temp && builtIn
    ensures name == "name01" && desc == "desc01"
  {
    var e: ConfigEntry;
    if linked {
      var host := new HostVar(v);
      e := new ConfigEntry.Linked("name00", host, "variable00", c);
    } else {
      e := new ConfigEntry.Var("name00", v, "variable00", c);
    }
    typename, numeric, isInt, isDouble, local := e.GetTypename(), e.IsNumeric(), e.IsInt(), e.IsDouble(), e.IsLocal();
    freshTemp, freshBuiltIn := e.IsTemporary(), e.IsBuiltIn();
    e.SetName("name01");
    e.SetDesc("desc01");
    e.SetTemporary();
    e.SetBuiltIn();
    temp, builtIn, name, desc := e.IsTemporary(), e.IsBuiltIn(), e.GetName(), e.GetDesc();
  }
}
