/** pkg/validate: checking configuration values, and turning the validator's complaints into
    readable lines. The validator library itself (struct tags, reflection, the e-mail check)
    is a parameter: its verdict on a value. Snake-casing a name part is a parameter too. */
module Validate {
  import opened Wrappers
  import opened GoStrings
  import opened Errors
  import opened Seqs

  /** enumMap: the values each enum validator accepts, by enum name. */
  const EnumMap: map<string, seq<string>> :=
    map["protocol" := ["https", "ssh"], "provider" := ["github", "gitlab"]]

  /** The tag an enum validator is registered under. */
  function EnumTag(key: string): string {
    "enum_" + key
  }

  /** The registered enum validator: accepts a value exactly when it is one of the listed
      values. */
  method EnumAccepts(values: seq<string>, str: string) returns (ok: bool)
    ensures ok <==> str in values
  {
    for i := 0 to |values|
      invariant str !in values[..i]
    {
      if values[i] == str {
        return true;
      }
    }
    assert values[..|values|] == values;
    return false;
  }

  // ---------------------------------------------------------------------------------------
  // Field names

  /** What convertFieldName makes of a struct namespace: the root struct dropped and every
      other part snake-cased; a namespace of one part is kept as it is. */
  function FieldName(ns: string, toSnake: string -> string): string {
    var parts := Split(ns, '.');
    if |parts| <= 1 then ns else Join(Map(parts[1..], toSnake), ".")
  }

  /** convertFieldName: the parts after the root are snake-cased in place. */
  method ConvertFieldName(ns: string, toSnake: string -> string) returns (r: string)
    ensures r == FieldName(ns, toSnake)
  {
    var parts := Split(ns, '.');
    if |parts| <= 1 {
      return ns;
    }
    parts := parts[1..];
    ghost var rest := parts;
    for i := 0 to |parts|
      invariant |parts| == |rest|
      invariant forall k :: 0 <= k < i ==> parts[k] == toSnake(rest[k])
      invariant forall k :: i <= k < |parts| ==> parts[k] == rest[k]
    {
      parts := parts[i := toSnake(parts[i])];
    }
    assert parts == Map(rest, toSnake);
    return Join(parts, ".");
  }

  /** A name without a dot is a field of no struct: it is kept as it is. */
  lemma FieldNameOfPlainName(ns: string, toSnake: string -> string)
    requires '.' !in ns
    ensures FieldName(ns, toSnake) == ns
  {
    SplitNoSeparator(ns, '.');
  }

  /** The root struct is dropped: the name of "Root.<rest>" is rest with every part
      snake-cased. */
  lemma FieldNameDropsRoot(root: string, rest: string, toSnake: string -> string)
    requires '.' !in root
    ensures FieldName(root + "." + rest, toSnake) == Join(Map(Split(rest, '.'), toSnake), ".")
  {
    SplitPiece(root, '.', rest);
    assert root + "." + rest == root + ['.'] + rest;
    var parts := Split(root + "." + rest, '.');
    assert parts[1..] == Split(rest, '.');
  }

  /** With parts that snake-case to names holding no dot, the converted name splits into
      exactly the snake-cased parts after the root. */
  lemma FieldNameParts(ns: string, toSnake: string -> string)
    requires |Split(ns, '.')| > 1
    requires forall k :: 0 <= k < |Split(ns, '.')| ==> '.' !in toSnake(Split(ns, '.')[k])
    ensures Split(FieldName(ns, toSnake), '.') == Map(Split(ns, '.')[1..], toSnake)
  {
    var parts := Split(ns, '.');
    var snake := Map(parts[1..], toSnake);
    forall k | 0 <= k < |snake|
      ensures '.' !in snake[k]
    {
      assert snake[k] == toSnake(parts[k + 1]);
    }
    SplitOfJoin(snake, '.');
  }

  /** With snake-casing that leaves names as they are, a namespace of several parts loses
      just its root. */
  lemma FieldNameKeepsRest(root: string, rest: string)
    requires '.' !in root
    ensures FieldName(root + "." + rest, s => s) == rest
  {
    FieldNameDropsRoot(root, rest, s => s);
    var parts := Split(rest, '.');
    assert Map(parts, s => s) == parts;
    JoinOfSplit(rest, '.');
  }

  // ---------------------------------------------------------------------------------------
  // Printing a failed field

  /** ErrorField: the field's converted name, the failed tag, the printed value and, for a
      slice field, the Name field of each element (what the unique printer reads through
      reflection). */
  datatype ErrorField = ErrorField(name: string, tag: string, value: string, names: seq<string>)

  /** tagPrinters, in order. */
  datatype Printer = Required | Enum | Unique

  const Printers: seq<Printer> := [Required, Enum, Unique]

  function Prefix(p: Printer): string {
    match p
    case Required => "required"
    case Enum => "enum_"
    case Unique => "unique"
  }

  /** What a printer says, before fmt renders it as text. */
  datatype Say =
    | CannotBeEmpty
    | BadEnum(enumName: string, value: string, vals: seq<string>)
    | Duplicate(name: string, first: int, again: int)
    | BadTag(tag: string, value: string)

  /** The fmt.Sprintf of each message; %v of a slice of strings is "[a b c]". */
  function Text(m: Say): string {
    match m
    case CannotBeEmpty => "cannot be empty"
    case BadEnum(enumName, value, vals) =>
      "invalid " + enumName + " " + Quote(value) + ", expect one of [" + Join(vals, " ") + "]"
    case Duplicate(name, first, again) =>
      "found duplicate name " + Quote(name) + ", index: " + Itoa(first) + " and " + Itoa(again)
    case BadTag(tag, value) => "invalid " + tag + " " + Quote(value)
  }

  /** The index in ps of the first printer whose prefix the tag starts with, or -1. */
  function FirstPrinter(ps: seq<Printer>, tag: string): (i: int)
    ensures -1 <= i < |ps|
    ensures i >= 0 ==> HasPrefix(tag, Prefix(ps[i])) && forall j :: 0 <= j < i ==> !HasPrefix(tag, Prefix(ps[j]))
    ensures i < 0 ==> forall j :: 0 <= j < |ps| ==> !HasPrefix(tag, Prefix(ps[j]))
  {
    if ps == [] then -1
    else if HasPrefix(tag, Prefix(ps[0])) then 0
    else
      var i := FirstPrinter(ps[1..], tag);
      assert forall j :: 1 <= j < |ps| ==> ps[j] == ps[1..][j - 1];
      if i < 0 then -1 else i + 1
  }

  /** The index of the first occurrence of x in s, or -1. */
  function IndexOf(s: seq<string>, x: string): (i: int)
    ensures -1 <= i < |s|
    ensures i >= 0 ==> s[i] == x && forall k :: 0 <= k < i ==> s[k] != x
    ensures i < 0 ==> x !in s
  {
    if s == [] then -1
    else
      var i := IndexOf(s[..|s| - 1], x);
      if i >= 0 then i
      else if s[|s| - 1] == x then |s| - 1
      else
        assert s == s[..|s| - 1] + [s[|s| - 1]];
        -1
  }

  /** The duplicate the unique printer reports: the first index whose name already occurred,
      paired with where that name first occurred; nothing when the names are distinct. */
  function FirstDuplicate(names: seq<string>): (r: Option<(nat, nat)>)
    ensures r.Some? ==> r.value.0 < r.value.1 < |names|
  {
    if names == [] then None
    else
      var init := names[..|names| - 1];
      match FirstDuplicate(init)
      case Some(p) => Some(p)
      case None =>
        var j := IndexOf(init, names[|names| - 1]);
        if j < 0 then None else Some((j, |names| - 1))
  }

  /** The unique printer: the first duplicate name and its two indices; "" and 0, 0 when
      there is none. */
  function UniqueSay(names: seq<string>): Say {
    match FirstDuplicate(names)
    case None => Duplicate("", 0, 0)
    case Some(p) => Duplicate(names[p.1], p.0, p.1)
  }

  /** The enum printer: the enum's name, the value and the values it accepts; an enum that
      is not registered lists none. */
  function EnumSay(tag: string, value: string): Say {
    var enumName := TrimPrefix(tag, "enum_");
    BadEnum(enumName, value, if enumName in EnumMap then EnumMap[enumName] else [])
  }

  function Print(p: Printer, f: ErrorField): Say {
    match p
    case Required => CannotBeEmpty
    case Enum => EnumSay(f.tag, f.value)
    case Unique => UniqueSay(f.names)
  }

  /** What ErrorField.String says after the name: the first matching printer's message, or
      the generic one when no printer matches (no printer's text is empty). */
  function FieldSay(f: ErrorField): Say {
    var i := FirstPrinter(Printers, f.tag);
    if i < 0 then BadTag(f.tag, f.value) else Print(Printers[i], f)
  }

  /** ErrorField.String */
  function FieldLine(f: ErrorField): string {
    f.name + ": " + Text(FieldSay(f))
  }

  /** ErrorField.String: tries the printers in order and stops at the first matching one. */
  method FieldString(f: ErrorField) returns (s: string)
    ensures s == FieldLine(f)
  {
    var msg: Option<Say> := None;
    for i := 0 to |Printers|
      invariant forall j :: 0 <= j < i ==> !HasPrefix(f.tag, Prefix(Printers[j]))
      invariant msg.None?
    {
      var printer := Printers[i];
      if HasPrefix(f.tag, Prefix(printer)) {
        assert FirstPrinter(Printers, f.tag) == i;
        match printer {
          case Required => msg := Some(CannotBeEmpty);
          case Enum => msg := Some(EnumSay(f.tag, f.value));
          case Unique =>
            var dup, ia, ib := FindDuplicate(f.names);
            msg := Some(Duplicate(dup, ia, ib));
        }
        break;
      }
    }
    var say := if msg.None? then BadTag(f.tag, f.value) else msg.value;
    assert say == FieldSay(f);
    return f.name + ": " + Text(say);
  }

  /** The loop of the unique printer: the names seen so far, each with the index it first
      occurred at, until a name comes again. */
  method FindDuplicate(names: seq<string>) returns (dup: string, ia: int, ib: int)
    ensures match FirstDuplicate(names)
      case None => dup == "" && ia == 0 && ib == 0
      case Some(p) => ia == p.0 && ib == p.1 && dup == names[p.1]
  {
    var seen: map<string, int> := map[];
    for i := 0 to |names|
      invariant FirstDuplicate(names[..i]).None?
      invariant forall k :: k in seen <==> k in names[..i]
      invariant forall k :: k in seen ==> 0 <= seen[k] < i && names[seen[k]] == k
    {
      var name := names[i];
      assert names[..i + 1][..i] == names[..i];
      if name in seen {
        var j := seen[name];
        SeenIsFirst(names, i, j);
        DuplicatePersists(names, i + 1);
        return name, j, i;
      }
      seen := seen[name := i];
    }
    assert names[..|names|] == names;
    return "", 0, 0;
  }

  // ---------------------------------------------------------------------------------------

  /** The step of FindDuplicate that finds a repeat: the index seen for the name is its
      first occurrence. */
  lemma SeenIsFirst(names: seq<string>, i: nat, j: nat)
    requires j < i < |names| && names[j] == names[i]
    requires FirstDuplicate(names[..i]).None?
    ensures FirstDuplicate(names[..i + 1]) == Some((j, i))
  {
    FirstDuplicateFacts(names[..i]);
    assert names[..i + 1][..i] == names[..i];
    assert names[..i][j] == names[i];
    assert IndexOf(names[..i], names[i]) == j;
  }

  /** Every printer says something, so the generic message is used exactly when no printer
      matches. */
  lemma PrintNeverEmpty(p: Printer, f: ErrorField)
    ensures Text(Print(p, f)) != ""
  {
    match p
    case Required =>
    case Enum => assert |Text(Print(p, f))| > 0;
    case Unique => assert |Text(Print(p, f))| > 0;
  }

  /** FirstDuplicate finds no duplicate exactly when the names are distinct; otherwise it
      names the earliest index whose name already occurred, and that name's only earlier
      occurrence. */
  lemma {:induction false} FirstDuplicateFacts(names: seq<string>)
    ensures FirstDuplicate(names).None? <==> Distinct(names)
    ensures FirstDuplicate(names).Some? ==>
      var p := FirstDuplicate(names).value;
      names[p.0] == names[p.1] && Distinct(names[..p.1])
  {
    if names != [] {
      var init := names[..|names| - 1];
      var last := names[|names| - 1];
      FirstDuplicateFacts(init);
      assert forall k :: 0 <= k < |init| ==> init[k] == names[k];
      if FirstDuplicate(init).Some? {
        var p := FirstDuplicate(init).value;
        assert names[..p.1] == init[..p.1];
        assert !Distinct(names) by {
          assert names[p.0] == names[p.1];
        }
      } else {
        var j := IndexOf(init, last);
        if j >= 0 {
          assert names[..|names| - 1] == init;
          assert !Distinct(names) by {
            assert names[j] == names[|names| - 1];
          }
        }
      }
    }
  }

  /** Once a prefix holds a duplicate, later names do not change which one is reported. */
  lemma {:induction false} DuplicatePersists(names: seq<string>, n: nat)
    requires n <= |names| && FirstDuplicate(names[..n]).Some?
    ensures FirstDuplicate(names) == FirstDuplicate(names[..n])
    decreases |names| - n
  {
    if n < |names| {
      assert names[..n + 1][..n] == names[..n];
      DuplicatePersists(names, n + 1);
    } else {
      assert names[..n] == names;
    }
  }

  /** A registered enum tag is printed by the enum printer, listing the accepted values. */
  lemma EnumFieldMessage(key: string, f: ErrorField)
    requires key in EnumMap && f.tag == EnumTag(key)
    ensures FieldSay(f) == BadEnum(key, f.value, EnumMap[key])
  {
    assert f.tag[..5] == "enum_";
    assert f.tag[5..] == key;
    assert !HasPrefix(f.tag, "required") by {
      assert f.tag[0] == 'e';
    }
    assert HasPrefix(f.tag, Prefix(Printers[1]));
  }

  /** A missing required value is printed as "cannot be empty". */
  lemma RequiredFieldMessage(f: ErrorField)
    requires HasPrefix(f.tag, "required")
    ensures FieldLine(f) == f.name + ": cannot be empty"
  {
    assert FirstPrinter(Printers, f.tag) == 0;
  }

  /** A tag no printer knows (the e-mail check, say) gets the generic message. */
  lemma OtherFieldMessage(f: ErrorField)
    requires !HasPrefix(f.tag, "required") && !HasPrefix(f.tag, "enum_") && !HasPrefix(f.tag, "unique")
    ensures FieldSay(f) == BadTag(f.tag, f.value)
  {
    assert FirstPrinter(Printers, f.tag) < 0;
  }

  /** A duplicate-name complaint reports the first repeat and the first occurrence of the
      repeated name. */
  lemma UniqueFieldMessage(f: ErrorField)
    requires HasPrefix(f.tag, "unique") && !Distinct(f.names)
    ensures FieldSay(f).Duplicate?
    ensures var m := FieldSay(f);
      0 <= m.first < m.again < |f.names| && f.names[m.first] == f.names[m.again] == m.name
      && Distinct(f.names[..m.again])
  {
    assert !HasPrefix(f.tag, "required") && !HasPrefix(f.tag, "enum_") by {
      assert f.tag[..6] == "unique";
      assert f.tag[0] == 'u';
    }
    assert !HasPrefix(f.tag, Prefix(Printers[0])) && !HasPrefix(f.tag, Prefix(Printers[1]));
    assert HasPrefix(f.tag, Prefix(Printers[2]));
    FirstDuplicateFacts(f.names);
  }

  // ---------------------------------------------------------------------------------------
  // Do

  /** One complaint of the validator: the struct namespace of the field, the failed tag, the
      printed value and, for a slice, its elements' names. */
  datatype FieldError = FieldError(namespace: string, tag: string, value: string, names: seq<string>)

  /** What the validator library says about a value. */
  datatype Verdict =
    | Valid
    /** InvalidValidationError: the value cannot be validated at all. */
    | Unusable(msg: string)
    | Invalid(errs: seq<FieldError>)

  /** The ErrorField Do records for a complaint: its namespace renamed. */
  function FieldOf(e: FieldError, toSnake: string -> string): (f: ErrorField)
    ensures f.name == FieldName(e.namespace, toSnake) && f.tag == e.tag && f.value == e.value
  {
    ErrorField(FieldName(e.namespace, toSnake), e.tag, e.value, e.names)
  }

  /** The fields Do records, one per complaint, in the validator's order. */
  function Fields(errs: seq<FieldError>, toSnake: string -> string): (r: seq<ErrorField>)
    ensures |r| == |errs|
    ensures forall k :: 0 <= k < |errs| ==> r[k] == FieldOf(errs[k], toSnake)
  {
    if errs == [] then []
    else Fields(errs[..|errs| - 1], toSnake) + [FieldOf(errs[|errs| - 1], toSnake)]
  }

  /** The lines the validation error prints, one per field. */
  function Lines(fields: seq<ErrorField>): (r: seq<string>)
    ensures |r| == |fields|
  {
    if fields == [] then [] else Lines(fields[..|fields| - 1]) + [FieldLine(fields[|fields| - 1])]
  }

  /** Do: nothing for a valid value, the library's error for an unusable one, and otherwise
      one printed line per failed field under a fixed message. */
  method Do(verdict: Verdict, toSnake: string -> string) returns (r: Option<Error>)
    ensures verdict.Valid? <==> r.None?
    ensures verdict.Unusable? ==> r == Some(Plain(verdict.msg))
    ensures verdict.Invalid? ==> r == Some(Validation(Lines(Fields(verdict.errs, toSnake))))
  {
    match verdict
    case Valid => return None;
    case Unusable(msg) => return Some(Plain(msg));
    case Invalid(errs) =>
      var fields := CollectFields(errs, toSnake);
      var lines := PrintFields(fields);
      return Some(Validation(lines));
  }

  /** The loop of Do over the complaints. */
  method CollectFields(errs: seq<FieldError>, toSnake: string -> string) returns (fields: seq<ErrorField>)
    ensures fields == Fields(errs, toSnake)
  {
    fields := [];
    for i := 0 to |errs|
      invariant fields == Fields(errs[..i], toSnake)
    {
      assert errs[..i + 1][..i] == errs[..i];
      var name := ConvertFieldName(errs[i].namespace, toSnake);
      fields := fields + [ErrorField(name, errs[i].tag, errs[i].value, errs[i].names)];
    }
    assert errs[..|errs|] == errs;
  }

  /** Extra of the validation error: each field's String, in order. */
  method PrintFields(fields: seq<ErrorField>) returns (lines: seq<string>)
    ensures lines == Lines(fields)
  {
    lines := [];
    for i := 0 to |fields|
      invariant lines == Lines(fields[..i])
    {
      assert fields[..i + 1][..i] == fields[..i];
      var line := FieldString(fields[i]);
      lines := lines + [line];
    }
    assert fields[..|fields|] == fields;
  }

  /** Line k is field k's String. */
  lemma {:induction false} LinesAt(fields: seq<ErrorField>, k: nat)
    requires k < |fields|
    ensures Lines(fields)[k] == FieldLine(fields[k])
    decreases |fields|
  {
    var init := fields[..|fields| - 1];
    assert Lines(fields) == Lines(init) + [FieldLine(fields[|fields| - 1])];
    if k < |init| {
      LinesAt(init, k);
      assert init[k] == fields[k];
    }
  }

  /** The error is reported with the fixed message and prints each field's line. */
  lemma InvalidReport(fields: seq<ErrorField>)
    ensures Message(Validation(Lines(fields))) == "failed to validate configuration:"
    ensures Extra(Validation(Lines(fields))) == Lines(fields)
  {
  }
}
