/** Field types as text: `parse_type_suffix` reads back every type a definition can print. */
module TypeSuffix {
  import opened Wrappers
  import opened Bytes
  import opened Definitions

  /** What `parse_type_suffix` fills in; a bound of 0 means none. */
  datatype Parsed = Parsed(ty: string, container: Container, length: nat, bound: nat, textBound: nat)

  // ----- extents -----

  predicate IsDigit(c: char) {
    '0' <= c <= '9'
  }

  predicate AllDigits(s: string) {
    forall i :: 0 <= i < |s| ==> IsDigit(s[i])
  }

  function Digit(c: char): (d: nat)
    requires IsDigit(c)
    ensures d < 10
  {
    c as int - '0' as int
  }

  /** The number a string of digits denotes. */
  function Value(s: string): nat
    requires AllDigits(s)
  {
    if s == "" then 0 else Value(s[..|s| - 1]) * 10 + Digit(s[|s| - 1])
  }

  /** An extent is accepted exactly when it is a number that fits `size_t`. */
  function Extent(s: string): Option<nat> {
    if s != "" && AllDigits(s) && Value(s) <= SIZE_MAX then Some(Value(s)) else None
  }

  lemma {:induction false} PrefixValue(s: string, i: nat)
    requires AllDigits(s) && i <= |s|
    ensures Value(s[..i]) <= Value(s)
    decreases |s| - i
  {
    if i == |s| {
      assert s[..i] == s;
    } else {
      PrefixValue(s, i + 1);
      assert s[..i + 1][..i] == s[..i];
    }
  }

  lemma {:induction false} OverflowTest(size: nat, digit: nat)
    requires digit < 10
    ensures size > (SIZE_MAX - digit) / 10 <==> size * 10 + digit > SIZE_MAX
  {
  }

  /** The digit loop, with its test before each multiplication. */
  method ExtentValue(s: string) returns (r: Option<nat>)
    ensures r == Extent(s)
  {
    if s == "" || !AllDigits(s) {
      return None;
    }
    var size := 0;
    for i := 0 to |s|
      invariant size == Value(s[..i]) <= SIZE_MAX
    {
      assert s[..i + 1][..i] == s[..i];
      var digit := Digit(s[i]);
      OverflowTest(size, digit);
      if size > (SIZE_MAX - digit) / 10 {
        PrefixValue(s, i + 1);
        return None;
      }
      size := size * 10 + digit;
    }
    assert s[..|s|] == s;
    r := Some(size);
  }

  // ----- the suffix -----

  predicate IsBlank(c: char) {
    c == ' ' || c == '\t' || c == '\r' || c == '\n'
  }

  function Trim(s: string): string
    decreases |s|
  {
    if s == "" then ""
    else if IsBlank(s[0]) then Trim(s[1..])
    else if IsBlank(s[|s| - 1]) then Trim(s[..|s| - 1])
    else s
  }

  function ParseContainer(ty: string): Option<Parsed> {
    var open := Find(ty, '[');
    var base := ty[..open];
    if open == |ty| then Some(Parsed(base, Scalar, 0, 0, 0))
    else
      var close := open + Find(ty[open..], ']');
      if close + 1 != |ty| then None
      else ParseBrackets(base, ty[open + 1..close])
  }

  function ParseBrackets(base: string, extent: string): Option<Parsed> {
    if extent == "" then Some(Parsed(base, Sequence, 0, 0, 0))
    else if "<=" <= extent then
      match Extent(extent[2..])
      case None => None
      case Some(n) => if n == 0 then None else Some(Parsed(base, Sequence, 0, n, 0))
    else
      match Extent(extent)
      case None => None
      case Some(n) => Some(Parsed(base, Array, n, 0, 0))
  }

  function ParseText(p: Parsed): Option<Parsed> {
    if "string<=" <= p.ty then WithTextBound(p, Extent(p.ty[8..]))
    else if "string<" <= p.ty then
      if p.ty[|p.ty| - 1] != '>' then None
      else WithTextBound(p, Extent(Trim(p.ty[7..|p.ty| - 1])))
    else Some(p)
  }

  function WithTextBound(p: Parsed, n: Option<nat>): Option<Parsed> {
    if n.None? || n.value == 0 then None else Some(p.(ty := "string", textBound := n.value))
  }

  /** The ROS1 names of times and durations stand for types of a package. */
  function FullName(name: string): string {
    if name == "time" then "builtin_interfaces/msg/Time"
    else if name == "duration" then "builtin_interfaces/msg/Duration"
    else name
  }

  function RenameTimes(p: Parsed): Parsed {
    p.(ty := FullName(p.ty))
  }

  function Parse(ty: string): Option<Parsed> {
    match ParseContainer(ty)
    case None => None
    case Some(p) =>
      match ParseText(p)
      case None => None
      case Some(q) => Some(RenameTimes(q))
  }

  /** `parse_type_suffix`: the field is filled in from the outside in. */
  method ParseTypeSuffix(ty: string) returns (r: Option<Parsed>)
    ensures r == Parse(ty)
  {
    r := ParseOuter(ty);
    if r.None? {
      return;
    }
    r := ParseTextBound(r.value);
    if r.Some? {
      r := Some(RenameTimes(r.value));
    }
  }

  method ParseOuter(ty: string) returns (r: Option<Parsed>)
    ensures r == ParseContainer(ty)
  {
    var open := Find(ty, '[');
    if open == |ty| {
      return Some(Parsed(ty[..open], Scalar, 0, 0, 0));
    }
    var close := open + Find(ty[open..], ']');
    if close == |ty| || close + 1 != |ty| {
      return None;
    }
    r := ParseExtent(ty[..open], ty[open + 1..close]);
  }

  method ParseExtent(base: string, extent: string) returns (r: Option<Parsed>)
    ensures r == ParseBrackets(base, extent)
  {
    if extent == "" {
      return Some(Parsed(base, Sequence, 0, 0, 0));
    }
    if "<=" <= extent {
      var n := ExtentValue(extent[2..]);
      return if n.None? || n.value == 0 then None else Some(Parsed(base, Sequence, 0, n.value, 0));
    }
    var n := ExtentValue(extent);
    r := if n.None? then None else Some(Parsed(base, Array, n.value, 0, 0));
  }

  method ParseTextBound(field: Parsed) returns (r: Option<Parsed>)
    ensures r == ParseText(field)
  {
    var extent: string;
    if "string<=" <= field.ty {
      extent := field.ty[8..];
    } else if "string<" <= field.ty {
      if field.ty[|field.ty| - 1] != '>' {
        return None;
      }
      extent := Trim(field.ty[7..|field.ty| - 1]);
    } else {
      return Some(field);
    }
    var n := ExtentValue(extent);
    if n.None? || n.value == 0 {
      return None;
    }
    r := Some(field.(ty := "string", textBound := n.value));
  }

  // ----- printing -----

  function Decimal(n: nat): string {
    if n < 10 then [('0' as int + n) as char] else Decimal(n / 10) + [('0' as int + n % 10) as char]
  }

  lemma {:induction false} DecimalReadsBack(n: nat)
    ensures Decimal(n) != "" && AllDigits(Decimal(n)) && Value(Decimal(n)) == n
  {
    if n < 10 {
      assert Decimal(n)[..0] == "";
    } else {
      DecimalReadsBack(n / 10);
      assert Decimal(n)[..|Decimal(n)| - 1] == Decimal(n / 10);
    }
  }

  /** A base type: a name, or a string with a bound, in either notation. */
  datatype Base = Plain(name: string) | AtMost(n: nat) | Angled(n: nat)
  datatype Suffix = NoSuffix | OfLength(n: nat) | AnyLength | UpTo(n: nat)

  predicate Printable(b: Base, x: Suffix) {
    && (match b
        case Plain(name) => '[' !in name && !("string<" <= name)
        case AtMost(n) => 0 < n <= SIZE_MAX
        case Angled(n) => 0 < n <= SIZE_MAX)
    && (match x
        case OfLength(n) => n <= SIZE_MAX
        case UpTo(n) => 0 < n <= SIZE_MAX
        case _ => true)
  }

  function PrintBase(b: Base): string {
    match b
    case Plain(name) => name
    case AtMost(n) => "string<=" + Decimal(n)
    case Angled(n) => "string<" + Decimal(n) + ">"
  }

  function PrintExtent(x: Suffix): string
    requires !x.NoSuffix?
  {
    match x
    case OfLength(n) => Decimal(n)
    case AnyLength => ""
    case UpTo(n) => "<=" + Decimal(n)
  }

  function Print(b: Base, x: Suffix): string {
    PrintBase(b) + if x.NoSuffix? then "" else "[" + PrintExtent(x) + "]"
  }

  function Meant(b: Base, x: Suffix): Parsed {
    var p := MeantContainer("", x);
    match b
    case Plain(name) => p.(ty := FullName(name))
    case AtMost(n) => p.(ty := "string", textBound := n)
    case Angled(n) => p.(ty := "string", textBound := n)
  }

  function MeantContainer(base: string, x: Suffix): Parsed {
    match x
    case NoSuffix => Parsed(base, Scalar, 0, 0, 0)
    case OfLength(n) => Parsed(base, Array, n, 0, 0)
    case AnyLength => Parsed(base, Sequence, 0, 0, 0)
    case UpTo(n) => Parsed(base, Sequence, 0, n, 0)
  }

  function MeantText(p: Parsed, b: Base): Parsed {
    match b
    case Plain(_) => p
    case AtMost(n) => p.(ty := "string", textBound := n)
    case Angled(n) => p.(ty := "string", textBound := n)
  }

  // ----- reading back -----

  lemma {:induction false} DigitsAlone(s: string)
    requires AllDigits(s)
    ensures '[' !in s && ']' !in s && (s != "" ==> s[0] != '<') && Trim(s) == s
  {
  }

  lemma {:induction false} BracketsFound(base: string, extent: string)
    requires '[' !in base && ']' !in extent
    ensures ParseContainer(base + ("[" + extent + "]")) == ParseBrackets(base, extent)
  {
    var inner := "[" + extent + "]";
    OpenFound(base, extent);
    CloseFound(extent);
    Parts(base, inner);
    assert inner[1..|inner| - 1] == extent;
  }

  lemma {:induction false} OpenFound(base: string, extent: string)
    requires '[' !in base
    ensures Find(base + ("[" + extent + "]"), '[') == |base|
  {
    assert base + ("[" + extent + "]") == base + ['['] + (extent + "]");
    FindIn(base, '[', extent + "]");
  }

  lemma {:induction false} CloseFound(extent: string)
    requires ']' !in extent
    ensures Find("[" + extent + "]", ']') == 1 + |extent|
  {
    assert "[" + extent + "]" == ("[" + extent) + [']'] + "";
    FindIn("[" + extent, ']', "");
  }

  lemma {:induction false} Parts(base: string, inner: string)
    requires |inner| >= 2
    ensures var ty := base + inner;
            && ty[..|base|] == base && ty[|base|..] == inner
            && ty[|base| + 1..|base| + |inner| - 1] == inner[1..|inner| - 1]
  {
  }

  // ----- what is accepted -----

  /** A number as definitions spell it, leading zeros and all. */
  predicate Denotes(s: string, n: nat) {
    s != "" && AllDigits(s) && Value(s) == n < 0x1_0000_0000_0000_0000
  }

  predicate Blank(s: string) {
    forall i :: 0 <= i < |s| ==> s[i] in " \t\r\n"
  }

  ghost predicate SpellsBase(s: string, b: Base) {
    match b
    case Plain(name) => s == name && !("string<" <= name)
    case AtMost(n) => n > 0 && exists digits :: s == "string<=" + digits && Denotes(digits, n)
    case Angled(n) =>
      n > 0 && exists before, digits, after ::
        Blank(before) && Blank(after) && Denotes(digits, n) && s == "string<" + (before + digits + after) + ">"
  }

  ghost predicate SpellsSuffix(s: string, x: Suffix) {
    match x
    case NoSuffix => s == ""
    case AnyLength => s == "[" + "" + "]"
    case OfLength(n) => exists digits :: s == "[" + digits + "]" && Denotes(digits, n)
    case UpTo(n) => n > 0 && exists digits :: s == "[" + ("<=" + digits) + "]" && Denotes(digits, n)
  }

  /** A field type is a base without brackets and a suffix. */
  ghost predicate Spells(ty: string, b: Base, x: Suffix) {
    exists base, suffix :: ty == base + suffix && '[' !in base && SpellsBase(base, b) && SpellsSuffix(suffix, x)
  }

  lemma {:induction false} TrimOf(before: string, s: string, after: string)
    requires Blank(before) && Blank(after) && s != "" && AllDigits(s)
    ensures Trim(before + s + after) == s
    decreases |before| + |after|
  {
    var all := before + s + after;
    if before != "" {
      assert all[1..] == before[1..] + s + after && all[0] == before[0];
      TrimOf(before[1..], s, after);
    } else if after != "" {
      assert all[..|all| - 1] == before + s + after[..|after| - 1] && all[|all| - 1] == after[|after| - 1];
      assert all[0] == s[0];
      TrimOf(before, s, after[..|after| - 1]);
    } else {
      assert all == s;
    }
  }

  lemma {:induction false} TrimSplits(s: string) returns (before: string, after: string)
    ensures Blank(before) && Blank(after) && s == before + Trim(s) + after
    decreases |s|
  {
    if s == "" {
      before, after := "", "";
    } else if IsBlank(s[0]) {
      before, after := TrimSplits(s[1..]);
      BlankFirst(s[0], before);
      assert s == [s[0]] + s[1..];
      before := [s[0]] + before;
    } else if IsBlank(s[|s| - 1]) {
      before, after := TrimSplits(s[..|s| - 1]);
      BlankLast(after, s[|s| - 1]);
      assert s == s[..|s| - 1] + [s[|s| - 1]];
      after := after + [s[|s| - 1]];
    } else {
      before, after := "", "";
    }
  }

  lemma {:induction false} BlankFirst(c: char, s: string)
    requires IsBlank(c) && Blank(s)
    ensures Blank([c] + s)
  {
  }

  lemma {:induction false} BlankLast(s: string, c: char)
    requires Blank(s) && IsBlank(c)
    ensures Blank(s + [c])
  {
  }

  lemma {:induction false} SuffixSpelled(base: string, suffix: string, x: Suffix)
    requires '[' !in base && SpellsSuffix(suffix, x)
    ensures ParseContainer(base + suffix) == Some(MeantContainer(base, x))
  {
    match x
    case NoSuffix =>
      assert base + suffix == base;
      FindNone(base, '[');
    case AnyLength => BracketsFound(base, "");
    case OfLength(n) =>
      var digits :| suffix == "[" + digits + "]" && Denotes(digits, n);
      LengthSpelled(base, digits, n);
    case UpTo(n) =>
      var digits :| suffix == "[" + ("<=" + digits) + "]" && Denotes(digits, n);
      BoundSpelled(base, digits, n);
  }

  lemma {:induction false} LengthSpelled(base: string, digits: string, n: nat)
    requires '[' !in base && Denotes(digits, n)
    ensures ParseContainer(base + ("[" + digits + "]")) == Some(Parsed(base, Array, n, 0, 0))
  {
    DigitsAlone(digits);
    BracketsFound(base, digits);
  }

  lemma {:induction false} BoundSpelled(base: string, digits: string, n: nat)
    requires '[' !in base && Denotes(digits, n) && n > 0
    ensures ParseContainer(base + ("[" + ("<=" + digits) + "]")) == Some(Parsed(base, Sequence, 0, n, 0))
  {
    DigitsAlone(digits);
    BracketsFound(base, "<=" + digits);
    assert ("<=" + digits)[2..] == digits;
  }

  lemma {:induction false} BaseSpelled(base: string, b: Base, p: Parsed)
    requires SpellsBase(base, b) && p.ty == base && p.textBound == 0
    ensures ParseText(p) == Some(MeantText(p, b))
  {
    match b
    case Plain(_) =>
      assert "string<=" <= p.ty ==> "string<" <= p.ty;
    case AtMost(n) =>
      var digits :| base == "string<=" + digits && Denotes(digits, n);
      assert p.ty[8..] == digits;
    case Angled(n) =>
      var before, digits, after :|
        Blank(before) && Blank(after) && Denotes(digits, n) && base == "string<" + (before + digits + after) + ">";
      AngledSpelled(p, before, digits, after, n);
  }

  lemma {:induction false} AngledSpelled(p: Parsed, before: string, digits: string, after: string, n: nat)
    requires Blank(before) && Blank(after) && Denotes(digits, n) && n > 0
    requires p.ty == "string<" + (before + digits + after) + ">"
    ensures ParseText(p) == Some(p.(ty := "string", textBound := n))
  {
    assert p.ty[7] == (before + digits + after)[0];
    assert p.ty[7..|p.ty| - 1] == before + digits + after;
    TrimOf(before, digits, after);
  }

  lemma {:induction false} SuffixWasSpelled(ty: string, p: Parsed) returns (suffix: string, x: Suffix)
    requires ParseContainer(ty) == Some(p)
    ensures ty == p.ty + suffix && '[' !in p.ty && SpellsSuffix(suffix, x) && p == MeantContainer(p.ty, x)
  {
    var open := Find(ty, '[');
    var base := ty[..open];
    suffix := ty[open..];
    NoneBefore(ty, '[');
    assert ty == base + suffix;
    if open == |ty| {
      x := NoSuffix;
    } else {
      var extent := BracketsWere(ty, suffix);
      x := ExtentWasSpelled(base, extent, suffix, p);
    }
  }

  lemma {:induction false} BracketsWere(ty: string, suffix: string) returns (extent: string)
    requires var open := Find(ty, '['); open < |ty| && suffix == ty[open..]
    requires ParseContainer(ty).Some?
    ensures suffix == "[" + extent + "]"
    ensures ParseContainer(ty) == ParseBrackets(ty[..Find(ty, '[')], extent)
  {
    var open := Find(ty, '[');
    var close := Find(suffix, ']');
    extent := ty[open + 1..open + close];
    Enclosed(suffix, close);
    assert extent == suffix[1..close];
  }

  lemma {:induction false} Enclosed(suffix: string, close: nat)
    requires 1 <= close && close + 1 == |suffix| && suffix[0] == '[' && suffix[close] == ']'
    ensures suffix == "[" + suffix[1..close] + "]"
  {
  }

  lemma {:induction false} NoneBefore(s: string, c: char)
    ensures c !in s[..Find(s, c)]
  {
    if s != "" && s[0] != c {
      NoneBefore(s[1..], c);
      assert s[..Find(s, c)] == [s[0]] + s[1..][..Find(s[1..], c)];
    }
  }

  lemma {:induction false} ExtentWasSpelled(base: string, extent: string, suffix: string, p: Parsed)
      returns (x: Suffix)
    requires ParseBrackets(base, extent) == Some(p) && suffix == "[" + extent + "]"
    ensures SpellsSuffix(suffix, x) && p == MeantContainer(base, x)
  {
    if extent == "" {
      x := AnyLength;
    } else if "<=" <= extent {
      var digits := extent[2..];
      x := UpTo(Value(digits));
      assert extent == "<=" + digits && Denotes(digits, x.n);
    } else {
      x := OfLength(Value(extent));
      assert Denotes(extent, x.n);
    }
  }

  lemma {:induction false} BaseWasSpelled(p: Parsed) returns (b: Base)
    requires ParseText(p).Some? && p.textBound == 0
    ensures SpellsBase(p.ty, b) && ParseText(p) == Some(MeantText(p, b)) && (b.Plain? ==> b.name == p.ty)
  {
    if "string<=" <= p.ty {
      b := AtMostWasSpelled(p);
    } else if "string<" <= p.ty {
      b := AngledWasSpelled(p);
    } else {
      b := Plain(p.ty);
    }
  }

  lemma {:induction false} AtMostWasSpelled(p: Parsed) returns (b: Base)
    requires ParseText(p).Some? && "string<=" <= p.ty
    ensures b.AtMost? && SpellsBase(p.ty, b) && ParseText(p) == Some(MeantText(p, b))
  {
    var digits := p.ty[8..];
    b := AtMost(Value(digits));
    assert p.ty == "string<=" + digits && Denotes(digits, b.n);
  }

  lemma {:induction false} AngledWasSpelled(p: Parsed) returns (b: Base)
    requires ParseText(p).Some? && "string<" <= p.ty && !("string<=" <= p.ty)
    ensures b.Angled? && SpellsBase(p.ty, b) && ParseText(p) == Some(MeantText(p, b))
  {
    var inner := p.ty[7..|p.ty| - 1];
    var before, after := TrimSplits(inner);
    var digits := Trim(inner);
    b := Angled(Value(digits));
    Closes(p.ty, inner);
    assert Denotes(digits, b.n) && p.ty == "string<" + (before + digits + after) + ">";
  }

  lemma {:induction false} Closes(ty: string, inner: string)
    requires "string<" <= ty && |ty| > 7 && ty[|ty| - 1] == '>' && inner == ty[7..|ty| - 1]
    ensures ty == "string<" + inner + ">"
  {
  }

  /** Exactly the spelled types are accepted, each as what it means; everything else is refused. */
  lemma {:induction false} AcceptedIsSpelled(ty: string, p: Parsed)
    ensures Parse(ty) == Some(p) <==> exists b, x :: Spells(ty, b, x) && p == Meant(b, x)
  {
    if b, x :| Spells(ty, b, x) && p == Meant(b, x) {
      SpelledIsAccepted(ty, b, x);
    }
    if Parse(ty) == Some(p) {
      var q := ParseContainer(ty).value;
      var suffix, x := SuffixWasSpelled(ty, q);
      var b := BaseWasSpelled(q);
      assert Spells(ty, b, x) && p == Meant(b, x);
    }
  }

  lemma {:induction false} SpelledIsAccepted(ty: string, b: Base, x: Suffix)
    requires Spells(ty, b, x)
    ensures Parse(ty) == Some(Meant(b, x))
  {
    var base, suffix :| ty == base + suffix && '[' !in base && SpellsBase(base, b) && SpellsSuffix(suffix, x);
    PartsAreAccepted(base, suffix, b, x);
  }

  lemma {:induction false} PartsAreAccepted(base: string, suffix: string, b: Base, x: Suffix)
    requires '[' !in base && SpellsBase(base, b) && SpellsSuffix(suffix, x)
    ensures Parse(base + suffix) == Some(Meant(b, x))
  {
    SuffixSpelled(base, suffix, x);
    BaseSpelled(base, b, MeantContainer(base, x));
    MeantInSteps(base, b, x);
  }

  lemma {:induction false} MeantInSteps(base: string, b: Base, x: Suffix)
    requires b.Plain? ==> b.name == base
    ensures RenameTimes(MeantText(MeantContainer(base, x), b)) == Meant(b, x)
  {
  }

  lemma {:induction false} BaseIsSpelled(b: Base)
    requires Printable(b, NoSuffix)
    ensures '[' !in PrintBase(b) && SpellsBase(PrintBase(b), b)
  {
    if !b.Plain? {
      DecimalReadsBack(b.n);
      DigitsAlone(Decimal(b.n));
      assert Denotes(Decimal(b.n), b.n);
      assert "" + Decimal(b.n) + "" == Decimal(b.n) && Blank("");
      assert b.Angled? ==> PrintBase(b) == "string<" + ("" + Decimal(b.n) + "") + ">";
    }
  }

  lemma {:induction false} SuffixIsSpelled(x: Suffix)
    requires Printable(Plain(""), x) && !x.NoSuffix?
    ensures SpellsSuffix("[" + PrintExtent(x) + "]", x)
  {
    if !x.AnyLength? {
      DecimalReadsBack(x.n);
      assert Denotes(Decimal(x.n), x.n);
    }
  }

  /** Every type prints to a text that parses back to the type, times and durations under their full names. */
  lemma {:induction false} TypesReadBack(b: Base, x: Suffix)
    requires Printable(b, x)
    ensures Parse(Print(b, x)) == Some(Meant(b, x))
  {
    var suffix := if x.NoSuffix? then "" else "[" + PrintExtent(x) + "]";
    BaseIsSpelled(b);
    if !x.NoSuffix? {
      SuffixIsSpelled(x);
    }
    PartsAreAccepted(PrintBase(b), suffix, b, x);
  }

  /** A plain name is kept, unless it is one of the two that stand for types of a package. */
  lemma {:induction false} NamesAreKept(name: string, suffix: string, x: Suffix)
    requires '[' !in name && !("string<" <= name) && SpellsSuffix(suffix, x)
    ensures Parse(name + suffix).Some?
    ensures Parse(name + suffix).value.ty
         == if name == "time" then "builtin_interfaces/msg/Time"
            else if name == "duration" then "builtin_interfaces/msg/Duration"
            else name
  {
    PartsAreAccepted(name, suffix, Plain(name), x);
  }
}
