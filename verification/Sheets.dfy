/** The two passes of the spreadsheet translator over the same column headers. */
module Sheets {
  import opened Options

  /** The three header cells of a column. */
  datatype Column = Column(name: string, scope: string, rule: string)

  // ----- strings -----

  /** The first position of a character, or -1. */
  function Find(s: string, c: char): (r: int)
    ensures -1 <= r < |s|
    ensures r >= 0 ==> s[r] == c
  {
    if s == "" then -1
    else if s[0] == c then 0
    else
      var r := Find(s[1..], c);
      if r < 0 then -1 else r + 1
  }

  predicate OccursAt(s: string, t: string, i: nat) { i + |t| <= |s| && s[i..i + |t|] == t }

  predicate Contains(s: string, t: string) {
    exists i :: 0 <= i <= |s| && OccursAt(s, t, i)
  }

  /** A text contains another if it is that text with something, or nothing, before and after it. */
  lemma ContainsExactly(s: string, t: string)
    ensures Contains(s, t) <==> exists before: string, after: string :: s == before + t + after
  {
    if Contains(s, t) {
      var i :| 0 <= i <= |s| && OccursAt(s, t, i);
      assert s == s[..i] + t + s[i + |t|..];
    }
    if before: string, after: string :| s == before + t + after {
      assert OccursAt(s, t, |before|);
    }
  }

  /** What is left when all blanks are taken away at the start. */
  function LeftStrip(s: string): (r: string)
    ensures |r| <= |s| && r == s[|s| - |r|..] && (r == "" || r[0] != ' ')
    ensures forall i :: 0 <= i < |s| - |r| ==> s[i] == ' '
  {
    if s != "" && s[0] == ' ' then LeftStrip(s[1..]) else s
  }

  /** What is left when all blanks are taken away at the end. */
  function RightStrip(s: string): (r: string)
    ensures |r| <= |s| && r == s[..|r|] && (r == "" || r[|r| - 1] != ' ')
    ensures forall i :: |r| <= i < |s| ==> s[i] == ' '
  {
    if s != "" && s[|s| - 1] == ' ' then RightStrip(s[..|s| - 1]) else s
  }

  // ----- what a column says -----

  predicate InScope(c: Column) { c.scope == "all" || c.scope == "server" }

  predicate IsArray(c: Column) { "array" <= c.rule }

  predicate IsIndexed(c: Column) { IsArray(c) && Find(c.name, '[') >= 0 }

  predicate IsPlainArray(c: Column) { IsArray(c) && Find(c.name, '[') < 0 }

  /** The name without its index. */
  function BaseName(c: Column): string {
    if IsIndexed(c) then c.name[..Find(c.name, '[')] else c.name
  }

  datatype Rule = Single | Repeated

  function RuleOf(c: Column): Rule { if IsArray(c) then Repeated else Single }

  function TypeOf(c: Column): string {
    if EndsWith(BaseName(c), "_dt") then "DateTime"
    else if !IsArray(c) then c.rule
    else if Contains(c.rule, "int32") then "int32"
    else if Contains(c.rule, "float") then "float"
    else if Contains(c.rule, "string") then "string"
    else c.rule
  }

  predicate EndsWith(s: string, t: string) { |t| <= |s| && s[|s| - |t|..] == t }

  /** The name as it is declared: what stands before an equals sign, unless that comes first. */
  function DeclaredName(name: string): string {
    if Find(name, '=') > 0 then RightStrip(LeftStrip(name[..Find(name, '=')])) else name
  }

  // ----- the schema pass -----

  /** A line of the generated message; a field may have a default. */
  datatype Field = Field(rule: Rule, typ: string, name: string, number: nat, default: Option<string>)

  predicate IsNumber(typ: string) {
    || typ == "int32" || typ == "int64" || typ == "uint32" || typ == "uint64" || typ == "sint32" || typ == "sint64"
    || typ == "fixed32" || typ == "fixed64" || typ == "sfixed32" || typ == "sfixed64" || typ == "double" || typ == "float"
  }

  /** What stands between the first equals sign of a name and the next one. */
  function DefaultText(name: string): string
    requires Find(name, '=') > 0
  {
    var rest := name[Find(name, '=') + 1..];
    RightStrip(LeftStrip(if Find(rest, '=') >= 0 then rest[..Find(rest, '=')] else rest))
  }

  /** The line for a field: times become numbers, and a single field gets the default its name or its type gives. */
  function Layout(rule: Rule, typ: string, name: string, number: nat): Field {
    if Find(name, '=') > 0 then Field(rule, typ, DeclaredName(name), number, Some(DefaultText(name)))
    else if rule == Repeated then Field(rule, typ, name, number, None)
    else if IsNumber(typ) then Field(rule, typ, name, number, Some("0"))
    else if typ == "string" || typ == "bytes" then Field(rule, typ, name, number, Some("\"\""))
    else if typ == "DateTime" || typ == "TimeDuration" then Field(rule, "uint64", name, number, Some("0"))
    else Field(rule, typ, name, number, None)
  }

  /** What the header cells of a column say. */
  lemma HeaderCells(c: Column)
    ensures InScope(c) <==> c.scope == "all" || c.scope == "server"
    ensures IsArray(c) <==> "array" <= c.rule
    ensures IsIndexed(c) <==> "array" <= c.rule && '[' in c.name
    ensures IsPlainArray(c) <==> "array" <= c.rule && '[' !in c.name
    ensures BaseName(c) <= c.name
    ensures IsIndexed(c) ==> c.name[|BaseName(c)|] == '[' && '[' !in BaseName(c)
    ensures !IsIndexed(c) ==> BaseName(c) == c.name
  {
    FindFirst(c.name, '[');
    if '[' !in c.name {
      NotThere(c.name, '[');
    }
  }

  /** The line a column without an equals sign declares, from its header cells: an array by the element type its rule
      names; a time, told by its name, as a number; anything else as the rule says, with the default of that type. */
  lemma LineOfColumn(c: Column, number: nat)
    requires '=' !in BaseName(c)
    ensures var name := BaseName(c);
            var time := |name| >= 3 && name[|name| - 3..] == "_dt";
            Layout(RuleOf(c), TypeOf(c), name, number)
            == if "array" <= c.rule then
                 Field(Repeated,
                       if time then "DateTime"
                       else if Contains(c.rule, "int32") then "int32"
                       else if Contains(c.rule, "float") then "float"
                       else if Contains(c.rule, "string") then "string" else c.rule,
                       name, number, None)
               else if time || c.rule == "DateTime" || c.rule == "TimeDuration" then
                 Field(Single, "uint64", name, number, Some("0"))
               else Field(Single, c.rule, name, number, DefaultOf(c.rule))
  {
    NotThere(BaseName(c), '=');
    hide Find, BaseName, Contains;
  }

  /** The default of a single value of a type. */
  function DefaultOf(typ: string): (r: Option<string>)
    ensures r == Some("0") <==>
              || typ == "int32" || typ == "int64" || typ == "uint32" || typ == "uint64" || typ == "sint32"
              || typ == "sint64" || typ == "fixed32" || typ == "fixed64" || typ == "sfixed32" || typ == "sfixed64"
              || typ == "double" || typ == "float"
    ensures r == Some("\"\"") <==> typ == "string" || typ == "bytes"
  {
    if IsNumber(typ) then Some("0") else if typ == "string" || typ == "bytes" then Some("\"\"") else None
  }

  /** A name with an equals sign after its start: what stands before the sign is declared, and what stands between it and
      the next one is the default; blanks around either do not count. */
  lemma LineWithDefault(c: Column, before: string, default: string, more: string, number: nat)
    requires before != "" && '=' !in before && '=' !in default && (more == "" || more[0] == '=')
    requires BaseName(c) == before + "=" + default + more
    ensures Layout(RuleOf(c), TypeOf(c), BaseName(c), number)
         == Field(if "array" <= c.rule then Repeated else Single, TypeOf(c),
                  RightStrip(LeftStrip(before)), number, Some(RightStrip(LeftStrip(default))))
  {
    SplitAtEquals(BaseName(c), before, default + more);
    SplitNext(default, more);
    hide Find, LeftStrip, RightStrip, TypeOf, BaseName;
    assert BaseName(c) == before + "=" + (default + more);
  }

  lemma SplitAtEquals(name: string, before: string, rest: string)
    requires '=' !in before && name == before + "=" + rest
    ensures Find(name, '=') == |before| && name[..|before|] == before && name[|before| + 1..] == rest
  {
    hide Find;
    assert name[..|before|] == before;
    FindAt(name, '=', |before|);
  }

  lemma SplitNext(default: string, more: string)
    requires '=' !in default && (more == "" || more[0] == '=')
    ensures var at := Find(default + more, '=');
            (if at >= 0 then (default + more)[..at] else default + more) == default
  {
    hide Find;
    var rest := default + more;
    if more != "" {
      assert rest[..|default|] == default;
      FindAt(rest, '=', |default|);
    } else {
      NotThere(rest, '=');
    }
  }

  lemma {:induction false} FindAt(s: string, c: char, i: nat)
    requires i < |s| && s[i] == c && c !in s[..i]
    ensures Find(s, c) == i
  {
    if i > 0 {
      assert s[..i] == [s[0]] + s[1..][..i - 1];
      FindAt(s[1..], c, i - 1);
    }
  }

  lemma LayoutKeeps(rule: Rule, typ: string, name: string, number: nat)
    ensures var f := Layout(rule, typ, name, number); f.rule == rule && f.name == DeclaredName(name) && f.number == number
  {
    hide Find, IsNumber;
  }

  /** The names of indexed arrays declared so far; the last plain array replaces them all by its own name. */
  datatype Seen = Names(names: set<string>) | Text(text: string)

  /** The state of the pass; it has crashed once it tries to add a name to what has become a text. */
  datatype Schema = Schema(seen: Seen, fields: seq<Field>, next: nat) | Crashed

  const START := Schema(Names({}), [], 1)

  function Declare(s: Schema, c: Column): Schema
    requires s.Schema?
  {
    s.(fields := s.fields + [Layout(RuleOf(c), TypeOf(c), BaseName(c), s.next)], next := s.next + 1)
  }

  predicate AlreadySeen(seen: Seen, name: string) {
    match seen case Names(names) => name in names case Text(text) => Contains(text, name)
  }

  /** One column. */
  function Define(s: Schema, c: Column): Schema {
    if s.Crashed? || !InScope(c) then s
    else if IsIndexed(c) then
      if AlreadySeen(s.seen, BaseName(c)) then s
      else if s.seen.Text? then Crashed
      else Declare(s.(seen := Names(s.seen.names + {BaseName(c)})), c)
    else if IsPlainArray(c) then Declare(s.(seen := Text(c.name)), c)
    else Declare(s, c)
  }

  /** After the first `n` columns. */
  function InterpretedTo(cols: seq<Column>, n: nat): Schema
    requires n <= |cols|
  {
    if n == 0 then START else Define(InterpretedTo(cols, n - 1), cols[n - 1])
  }

  function SchemaOf(cols: seq<Column>): Schema { InterpretedTo(cols, |cols|) }

  // ----- what the data pass needs -----

  /** Some declared field has this name and rule. */
  predicate Declared(fields: seq<Field>, name: string, rule: Rule) {
    exists i :: 0 <= i < |fields| && fields[i].name == name && fields[i].rule == rule
  }

  /** The schema pass gets through, and has declared whatever the data pass uses. */
  ghost predicate PassesAgree(cols: seq<Column>) {
    && SchemaOf(cols).Schema?
    && forall i :: 0 <= i < |cols| && InScope(cols[i]) ==>
         Declared(SchemaOf(cols).fields, BaseName(cols[i]), RuleOf(cols[i]))
  }

  // ----- when the passes agree -----

  predicate PlainBefore(cols: seq<Column>, n: nat)
    requires n <= |cols|
  {
    exists i :: 0 <= i < n && InScope(cols[i]) && IsPlainArray(cols[i])
  }

  /** The last plain array before column `n`. */
  function LastPlain(cols: seq<Column>, n: nat): string
    requires n <= |cols|
  {
    if n == 0 then "" else if InScope(cols[n - 1]) && IsPlainArray(cols[n - 1]) then cols[n - 1].name
    else LastPlain(cols, n - 1)
  }

  /** Column `i` declares its array: it is a plain one, or an indexed one with no plain one before it. */
  predicate Declares(cols: seq<Column>, i: nat)
    requires i < |cols|
  {
    InScope(cols[i]) && (IsPlainArray(cols[i]) || (IsIndexed(cols[i]) && !PlainBefore(cols, i)))
  }

  predicate DeclaredBefore(cols: seq<Column>, n: nat, name: string)
    requires n <= |cols|
  {
    exists i :: 0 <= i < n && Declares(cols, i) && BaseName(cols[i]) == name
  }

  /** No name has an equals sign after its start; and an indexed array after a plain one is part of the name of the
      last plain one before it, and is declared by another column. */
  predicate Fine(cols: seq<Column>) {
    forall i :: 0 <= i < |cols| && InScope(cols[i]) ==> FineAt(cols, i)
  }

  predicate FineAt(cols: seq<Column>, i: nat)
    requires i < |cols|
  {
    && Find(BaseName(cols[i]), '=') <= 0
    && (IsIndexed(cols[i]) && PlainBefore(cols, i) ==>
          Contains(LastPlain(cols, i), BaseName(cols[i])) && DeclaredBefore(cols, |cols|, BaseName(cols[i])))
  }

  /** An indexed array that the schema pass chokes on. */
  predicate Breaks(cols: seq<Column>, i: nat)
    requires i < |cols|
  {
    InScope(cols[i]) && IsIndexed(cols[i]) && PlainBefore(cols, i) && !Contains(LastPlain(cols, i), BaseName(cols[i]))
  }

  predicate BreaksBefore(cols: seq<Column>, n: nat)
    requires n <= |cols|
  {
    exists i :: 0 <= i < n && Breaks(cols, i)
  }

  predicate IndexedBefore(cols: seq<Column>, n: nat, name: string)
    requires n <= |cols|
  {
    exists i :: 0 <= i < n && InScope(cols[i]) && IsIndexed(cols[i]) && BaseName(cols[i]) == name
  }

  /** What the pass has seen, from the columns before. */
  ghost predicate SeenRight(cols: seq<Column>, n: nat, seen: Seen)
    requires n <= |cols|
  {
    if PlainBefore(cols, n) then seen == Text(LastPlain(cols, n))
    else seen.Names? && forall name :: name in seen.names <==> IndexedBefore(cols, n, name)
  }

  lemma PlainNext(cols: seq<Column>, n: nat)
    requires n < |cols|
    ensures PlainBefore(cols, n + 1) <==> PlainBefore(cols, n) || (InScope(cols[n]) && IsPlainArray(cols[n]))
  {
    hide InScope, IsPlainArray;
  }

  lemma IndexedNext(cols: seq<Column>, n: nat, name: string)
    requires n < |cols|
    ensures IndexedBefore(cols, n + 1, name)
       <==> IndexedBefore(cols, n, name) || (InScope(cols[n]) && IsIndexed(cols[n]) && BaseName(cols[n]) == name)
  {
    hide InScope, IsIndexed, BaseName;
  }

  lemma BreaksNext(cols: seq<Column>, n: nat)
    requires n < |cols|
    ensures BreaksBefore(cols, n + 1) <==> BreaksBefore(cols, n) || Breaks(cols, n)
  {
    hide Breaks;
  }

  /** What the pass has seen after one more column, and whether it crashes there. */
  lemma SeenStep(cols: seq<Column>, n: nat, s: Schema)
    requires n < |cols| && s.Schema? && SeenRight(cols, n, s.seen)
    ensures var next := Define(s, cols[n]);
            && (next.Crashed? <==> Breaks(cols, n))
            && (next.Schema? ==> SeenRight(cols, n + 1, next.seen))
  {
    hide *;
    PlainNext(cols, n);
    LastPlainNext(cols, n);
    DefineSeen(s, cols[n]);
    BreaksIs(cols, n);
    SeenRightIs(cols, n, s.seen);
    if Define(s, cols[n]).Schema? {
      SeenRightIs(cols, n + 1, Define(s, cols[n]).seen);
    }
    forall name
      ensures IndexedBefore(cols, n + 1, name)
         <==> IndexedBefore(cols, n, name) || (InScope(cols[n]) && IsIndexed(cols[n]) && BaseName(cols[n]) == name)
    {
      IndexedNext(cols, n, name);
    }
  }

  lemma LastPlainNext(cols: seq<Column>, n: nat)
    requires n < |cols|
    ensures LastPlain(cols, n + 1) == if InScope(cols[n]) && IsPlainArray(cols[n]) then cols[n].name else LastPlain(cols, n)
  {
    hide InScope, IsPlainArray;
  }

  lemma BreaksIs(cols: seq<Column>, i: nat)
    requires i < |cols|
    ensures Breaks(cols, i) <==>
              InScope(cols[i]) && IsIndexed(cols[i]) && PlainBefore(cols, i)
              && !Contains(LastPlain(cols, i), BaseName(cols[i]))
  {
    hide InScope, IsIndexed, PlainBefore, Contains, LastPlain, BaseName;
  }

  lemma SeenRightIs(cols: seq<Column>, n: nat, seen: Seen)
    requires n <= |cols|
    ensures SeenRight(cols, n, seen) <==>
              if PlainBefore(cols, n) then seen == Text(LastPlain(cols, n))
              else seen.Names? && forall name :: name in seen.names <==> IndexedBefore(cols, n, name)
  {
    hide PlainBefore, IndexedBefore, LastPlain;
  }

  /** What one column does to what has been seen. */
  lemma DefineSeen(s: Schema, c: Column)
    requires s.Schema?
    ensures InScope(c) && IsPlainArray(c) ==> !IsIndexed(c)
    ensures var next := Define(s, c);
            if !InScope(c) then next == s
            else if IsIndexed(c) && s.seen.Text? then
              if Contains(s.seen.text, BaseName(c)) then next == s else next.Crashed?
            else if IsIndexed(c) then next.Schema? && next.seen == Names(s.seen.names + {BaseName(c)})
            else next.Schema? && next.seen == if IsPlainArray(c) then Text(c.name) else s.seen
  {
    hide Layout, Find, Contains, RuleOf, TypeOf, InScope, BaseName;
  }

  /** The state of the pass in terms of the columns before: it crashes at the first array it chokes on, and until then
      it knows the indexed arrays seen, or only the name of the last plain one. */
  lemma {:induction false} SeenOverColumns(cols: seq<Column>, n: nat)
    requires n <= |cols|
    ensures InterpretedTo(cols, n).Crashed? <==> BreaksBefore(cols, n)
    ensures InterpretedTo(cols, n).Schema? ==> SeenRight(cols, n, InterpretedTo(cols, n).seen)
  {
    hide *;
    if n == 0 {
      NothingSeen(cols);
    } else {
      InterpretedNext(cols, n - 1);
      SeenOverColumns(cols, n - 1);
      BreaksNext(cols, n - 1);
      if InterpretedTo(cols, n - 1).Schema? {
        SeenStep(cols, n - 1, InterpretedTo(cols, n - 1));
      }
    }
  }

  lemma NothingSeen(cols: seq<Column>)
    ensures !BreaksBefore(cols, 0)
    ensures InterpretedTo(cols, 0).Schema? && SeenRight(cols, 0, InterpretedTo(cols, 0).seen)
  {
    hide InScope, IsPlainArray;
  }

  lemma InterpretedNext(cols: seq<Column>, n: nat)
    requires n < |cols|
    ensures InterpretedTo(cols, n + 1) == Define(InterpretedTo(cols, n), cols[n])
    ensures InterpretedTo(cols, n).Crashed? ==> InterpretedTo(cols, n + 1).Crashed?
  {
    hide InScope, IsIndexed, IsPlainArray, AlreadySeen, Declare;
  }

  /** Fields are numbered from one without gaps. */
  lemma {:induction false} NumbersHaveNoGaps(cols: seq<Column>, n: nat)
    requires n <= |cols| && InterpretedTo(cols, n).Schema?
    ensures var s := InterpretedTo(cols, n);
            s.next == |s.fields| + 1 && forall i :: 0 <= i < |s.fields| ==> s.fields[i].number == i + 1
  {
    hide *;
    if n == 0 {
      NothingDeclared(cols);
    } else {
      InterpretedNext(cols, n - 1);
      NumbersHaveNoGaps(cols, n - 1);
      DefineNumbers(InterpretedTo(cols, n - 1), cols[n - 1]);
    }
  }

  lemma NothingDeclared(cols: seq<Column>)
    ensures InterpretedTo(cols, 0).Schema? && InterpretedTo(cols, 0).fields == [] && InterpretedTo(cols, 0).next == 1
  {
  }

  lemma DefineNumbers(s: Schema, c: Column)
    requires s.Schema? && Define(s, c).Schema?
    ensures var t := Define(s, c);
            || (t.fields == s.fields && t.next == s.next)
            || (|t.fields| == |s.fields| + 1 && t.fields[..|s.fields|] == s.fields
                && t.fields[|s.fields|].number == s.next && t.next == s.next + 1)
  {
    hide Layout, RuleOf, TypeOf, InScope, BaseName, IsIndexed, IsPlainArray, AlreadySeen;
    LineNumber(s, c);
  }

  lemma LineNumber(s: Schema, c: Column)
    requires s.Schema?
    ensures Layout(RuleOf(c), TypeOf(c), BaseName(c), s.next).number == s.next
  {
    hide *;
    LayoutKeeps(RuleOf(c), TypeOf(c), BaseName(c), s.next);
  }

  // ----- what is declared -----

  /** A single-valued column before `n` declares the name. */
  predicate OptionalBefore(cols: seq<Column>, n: nat, name: string)
    requires n <= |cols|
  {
    exists i :: 0 <= i < n && InScope(cols[i]) && !IsArray(cols[i]) && DeclaredName(BaseName(cols[i])) == name
  }

  predicate RepeatedBefore(cols: seq<Column>, n: nat, name: string)
    requires n <= |cols|
  {
    exists i :: 0 <= i < n && Declares(cols, i) && DeclaredName(BaseName(cols[i])) == name
  }

  lemma OptionalNext(cols: seq<Column>, n: nat, name: string)
    requires n < |cols|
    ensures OptionalBefore(cols, n + 1, name)
       <==> OptionalBefore(cols, n, name)
            || (InScope(cols[n]) && !IsArray(cols[n]) && DeclaredName(BaseName(cols[n])) == name)
  {
    hide InScope, IsArray, DeclaredName, BaseName;
  }

  lemma RepeatedNext(cols: seq<Column>, n: nat, name: string)
    requires n < |cols|
    ensures RepeatedBefore(cols, n + 1, name)
       <==> RepeatedBefore(cols, n, name) || (Declares(cols, n) && DeclaredName(BaseName(cols[n])) == name)
  {
    hide Declares, DeclaredName, BaseName;
  }

  lemma DeclareAdds(s: Schema, c: Column, name: string, rule: Rule)
    requires s.Schema?
    ensures Declared(Declare(s, c).fields, name, rule)
       <==> Declared(s.fields, name, rule) || (RuleOf(c) == rule && DeclaredName(BaseName(c)) == name)
  {
    hide *;
    DeclareIs(s, c);
    OneMoreDeclared(s.fields, Layout(RuleOf(c), TypeOf(c), BaseName(c), s.next), name, rule);
    LayoutKeeps(RuleOf(c), TypeOf(c), BaseName(c), s.next);
  }

  lemma DeclareIs(s: Schema, c: Column)
    requires s.Schema?
    ensures Declare(s, c).fields == s.fields + [Layout(RuleOf(c), TypeOf(c), BaseName(c), s.next)]
  {
    hide RuleOf, TypeOf, BaseName, Layout;
  }

  lemma OneMoreDeclared(fields: seq<Field>, f: Field, name: string, rule: Rule)
    ensures Declared(fields + [f], name, rule) <==> Declared(fields, name, rule) || (f.rule == rule && f.name == name)
  {
    var more := fields + [f];
    if i :| 0 <= i < |fields| && fields[i].name == name && fields[i].rule == rule {
      assert more[i] == fields[i];
    }
    assert more[|fields|] == f;
  }

  /** An indexed array seen before any plain one was declared when it was first seen. */
  lemma SeenIsDeclared(cols: seq<Column>, n: nat, name: string)
    requires n <= |cols| && !PlainBefore(cols, n) && IndexedBefore(cols, n, name)
    ensures RepeatedBefore(cols, n, DeclaredName(name))
  {
    hide InScope, IsIndexed, IsPlainArray, DeclaredName, BaseName;
    var i :| 0 <= i < n && InScope(cols[i]) && IsIndexed(cols[i]) && BaseName(cols[i]) == name;
    assert Declares(cols, i);
  }

  lemma ArrayKinds(c: Column)
    ensures IsArray(c) <==> IsIndexed(c) || IsPlainArray(c)
    ensures !(IsIndexed(c) && IsPlainArray(c))
    ensures RuleOf(c) == if IsArray(c) then Repeated else Single
  {
    hide Find;
  }

  lemma {:induction false} FieldsAre(cols: seq<Column>, n: nat, name: string)
    requires n <= |cols| && InterpretedTo(cols, n).Schema?
    ensures Declared(InterpretedTo(cols, n).fields, name, Single) <==> OptionalBefore(cols, n, name)
    ensures Declared(InterpretedTo(cols, n).fields, name, Repeated) <==> RepeatedBefore(cols, n, name)
  {
    if n > 0 {
      var s, c := InterpretedTo(cols, n - 1), cols[n - 1];
      FieldsAre(cols, n - 1, name);
      SeenOverColumns(cols, n - 1);
      OptionalNext(cols, n - 1, name);
      RepeatedNext(cols, n - 1, name);
      ArrayKinds(c);
      hide InScope, IsArray, IsIndexed, IsPlainArray, DeclaredName, BaseName, RuleOf, TypeOf, Declared, Declare,
           OptionalBefore, RepeatedBefore, PlainBefore, IndexedBefore, BreaksBefore, Contains;
      if InScope(c) {
        FieldsStep(s, c, name, Single);
        FieldsStep(s, c, name, Repeated);
        if IsIndexed(c) && s.seen.Names? && BaseName(c) in s.seen.names {
          SeenIsDeclared(cols, n - 1, BaseName(c));
        }
      }
    }
  }

  lemma FieldsStep(s: Schema, c: Column, name: string, rule: Rule)
    requires s.Schema? && InScope(c) && Define(s, c).Schema?
    ensures var t := Define(s, c);
            if IsIndexed(c) && AlreadySeen(s.seen, BaseName(c)) then t == s
            else Declared(t.fields, name, rule) <==>
                   Declared(s.fields, name, rule) || (RuleOf(c) == rule && DeclaredName(BaseName(c)) == name)
  {
    hide InScope, IsIndexed, IsPlainArray, DeclaredName, BaseName, RuleOf, Declared, AlreadySeen, Declare;
    DeclareAdds(s, c, name, rule);
    DeclareAdds(s.(seen := Text(c.name)), c, name, rule);
    if s.seen.Names? {
      DeclareAdds(s.(seen := Names(s.seen.names + {BaseName(c)})), c, name, rule);
    }
  }

  // ----- the two passes agree -----

  lemma {:induction false} FindFirst(s: string, c: char)
    ensures Find(s, c) < 0 ==> c !in s
    ensures Find(s, c) >= 0 ==> c !in s[..Find(s, c)]
  {
    if s != "" && s[0] != c {
      FindFirst(s[1..], c);
      var r := Find(s[1..], c);
      assert s == [s[0]] + s[1..];
      if r >= 0 {
        assert s[..r + 1] == [s[0]] + s[1..][..r];
      }
    }
  }

  lemma {:induction false} NotThere(s: string, c: char)
    requires c !in s
    ensures Find(s, c) == -1
  {
    if s != "" {
      assert s[0] in s;
      NotThere(s[1..], c);
    }
  }

  lemma {:induction false} LeftStripKeeps(s: string, c: char)
    requires c !in s
    ensures c !in LeftStrip(s)
  {
    if s != "" && s[0] == ' ' {
      LeftStripKeeps(s[1..], c);
    }
  }

  lemma {:induction false} RightStripKeeps(s: string, c: char)
    requires c !in s
    ensures c !in RightStrip(s)
  {
    if s != "" && s[|s| - 1] == ' ' {
      RightStripKeeps(s[..|s| - 1], c);
    }
  }

  /** A declared name has no equals sign after its start; so a name that has one is never declared. */
  lemma DeclaredHasNoEquals(name: string)
    ensures Find(DeclaredName(name), '=') <= 0
    ensures Find(name, '=') <= 0 ==> DeclaredName(name) == name
  {
    if Find(name, '=') > 0 {
      FindFirst(name, '=');
      var prefix := name[..Find(name, '=')];
      hide Find, LeftStrip, RightStrip;
      LeftStripKeeps(prefix, '=');
      RightStripKeeps(LeftStrip(prefix), '=');
      NotThere(RightStrip(LeftStrip(prefix)), '=');
    }
  }

  lemma FineAgreesAt(cols: seq<Column>, i: nat)
    requires Fine(cols) && i < |cols| && InScope(cols[i]) && SchemaOf(cols).Schema?
    ensures Declared(SchemaOf(cols).fields, BaseName(cols[i]), RuleOf(cols[i]))
  {
    var c, n := cols[i], |cols|;
    assert FineAt(cols, i);
    ArrayKinds(c);
    FieldsAre(cols, n, BaseName(c));
    DeclaredHasNoEquals(BaseName(c));
    hide InterpretedTo, InScope, IsArray, IsIndexed, IsPlainArray, BaseName, DeclaredName, Find, Declared, PlainBefore, Contains;
    if IsArray(c) {
      assert Declares(cols, i) || DeclaredBefore(cols, n, BaseName(c));
    }
  }

  lemma AgreeIsFineAt(cols: seq<Column>, i: nat)
    requires PassesAgree(cols) && i < |cols| && InScope(cols[i])
    ensures FineAt(cols, i)
  {
    var c, n := cols[i], |cols|;
    SeenOverColumns(cols, n);
    assert Declared(SchemaOf(cols).fields, BaseName(c), RuleOf(c));
    ArrayKinds(c);
    FieldsAre(cols, n, BaseName(c));
    NameWithoutEquals(cols, i);
    hide InterpretedTo, InScope, IsArray, IsIndexed, IsPlainArray, BaseName, DeclaredName, Find, Declared, PlainBefore,
         Contains, PassesAgree, LastPlain;
    if IsIndexed(c) && PlainBefore(cols, i) {
      assert !Breaks(cols, i);
      var j :| 0 <= j < n && Declares(cols, j) && DeclaredName(BaseName(cols[j])) == BaseName(c);
      NameWithoutEquals(cols, j);
      DeclaredHasNoEquals(BaseName(cols[j]));
    }
  }

  lemma NameWithoutEquals(cols: seq<Column>, i: nat)
    requires PassesAgree(cols) && i < |cols| && InScope(cols[i])
    ensures Find(BaseName(cols[i]), '=') <= 0
  {
    var c := cols[i];
    assert Declared(SchemaOf(cols).fields, BaseName(c), RuleOf(c));
    ArrayKinds(c);
    FieldsAre(cols, |cols|, BaseName(c));
    hide InterpretedTo, InScope, IsArray, BaseName, DeclaredName, Find, Declared, Declares;
    if IsArray(c) {
      var j :| 0 <= j < |cols| && Declares(cols, j) && DeclaredName(BaseName(cols[j])) == BaseName(c);
      DeclaredHasNoEquals(BaseName(cols[j]));
    } else {
      var j :| 0 <= j < |cols| && InScope(cols[j]) && !IsArray(cols[j]) && DeclaredName(BaseName(cols[j])) == BaseName(c);
      DeclaredHasNoEquals(BaseName(cols[j]));
    }
  }

  /** The schema pass gets through and declares everything that the data pass uses if and only if the headers
      are fine. */
  lemma PassesAgreeExactly(cols: seq<Column>)
    ensures PassesAgree(cols) <==> Fine(cols)
  {
    SeenOverColumns(cols, |cols|);
    hide InterpretedTo, InScope, Declared, FineAt, IsIndexed, PlainBefore, LastPlain, BaseName, RuleOf, Contains;
    if Fine(cols) {
      FineDoesNotBreak(cols);
      forall i | 0 <= i < |cols| && InScope(cols[i])
        ensures Declared(SchemaOf(cols).fields, BaseName(cols[i]), RuleOf(cols[i]))
      {
        FineAgreesAt(cols, i);
      }
    }
    if PassesAgree(cols) {
      forall i | 0 <= i < |cols| && InScope(cols[i]) ensures FineAt(cols, i) {
        AgreeIsFineAt(cols, i);
      }
    }
  }

  lemma FineDoesNotBreak(cols: seq<Column>)
    requires Fine(cols)
    ensures !BreaksBefore(cols, |cols|)
  {
    hide Find, Contains, BaseName, IsIndexed, InScope, PlainBefore, LastPlain, DeclaredBefore;
    forall i | 0 <= i < |cols| ensures !Breaks(cols, i) {
      assert InScope(cols[i]) ==> FineAt(cols, i);
    }
  }

  /** In particular the passes agree on every sheet with no equals sign in a name and no indexed array after a
      plain one. */
  lemma PlainSheetsAgree(cols: seq<Column>)
    requires forall i :: 0 <= i < |cols| ==> '=' !in cols[i].name
    requires forall i :: 0 <= i < |cols| && InScope(cols[i]) && IsIndexed(cols[i]) ==> !PlainBefore(cols, i)
    ensures PassesAgree(cols)
  {
    PassesAgreeExactly(cols);
    hide Find, Contains, InScope, PlainBefore, LastPlain, DeclaredBefore, PassesAgree, IsIndexed;
    forall i | 0 <= i < |cols| && InScope(cols[i]) ensures FineAt(cols, i) {
      BaseIsPrefix(cols[i]);
      NotThere(BaseName(cols[i]), '=');
    }
  }

  lemma BaseIsPrefix(c: Column)
    ensures BaseName(c) <= c.name
  {
  }

  // ----- the data pass -----

  /** One parsed row; a cell that yields no value is None. */
  datatype Item = Item(single: map<string, int>, repeated: map<string, seq<int>>)

  const NO_ITEM := Item(map[], map[])

  function Elements(item: Item, name: string): seq<int> {
    if name in item.repeated then item.repeated[name] else []
  }

  /** What one column adds to a row; None when the name was not declared, or an array has no value to add. */
  function AddField(item: Item, fields: seq<Field>, c: Column, cell: Option<int>): Option<Item> {
    if !InScope(c) then Some(item)
    else if IsArray(c) then
      if !Declared(fields, BaseName(c), Repeated) || cell.None? then None
      else Some(item.(repeated := item.repeated[BaseName(c) := Elements(item, BaseName(c)) + [cell.value]]))
    else if cell.None? then Some(item)
    else if !Declared(fields, c.name, Single) then None
    else Some(item.(single := item.single[c.name := cell.value]))
  }

  function ParsedTo(fields: seq<Field>, cols: seq<Column>, cells: seq<Option<int>>, n: nat): Option<Item>
    requires n <= |cols| == |cells|
  {
    if n == 0 then Some(NO_ITEM)
    else
      match ParsedTo(fields, cols, cells, n - 1)
      case None => None
      case Some(item) => AddField(item, fields, cols[n - 1], cells[n - 1])
  }

  /** The values of the in-scope columns of an array, in column order. */
  function ColumnValues(cols: seq<Column>, cells: seq<Option<int>>, n: nat, name: string): seq<int>
    requires n <= |cols| == |cells|
  {
    if n == 0 then []
    else
      ColumnValues(cols, cells, n - 1, name)
      + if InScope(cols[n - 1]) && IsArray(cols[n - 1]) && BaseName(cols[n - 1]) == name && cells[n - 1].Some?
        then [cells[n - 1].value] else []
  }

  lemma {:induction false} ElementsAreColumns(fields: seq<Field>, cols: seq<Column>, cells: seq<Option<int>>, n: nat, name: string)
    requires n <= |cols| == |cells| && ParsedTo(fields, cols, cells, n).Some?
    ensures Elements(ParsedTo(fields, cols, cells, n).value, name) == ColumnValues(cols, cells, n, name)
  {
    hide InScope, IsArray, BaseName, Declared;
    if n > 0 {
      ElementsAreColumns(fields, cols, cells, n - 1, name);
    }
  }

  /** Column `i` has a value for the single field of that name. */
  predicate Gives(cols: seq<Column>, cells: seq<Option<int>>, i: nat, name: string)
    requires i < |cols| == |cells|
  {
    InScope(cols[i]) && !IsArray(cols[i]) && cols[i].name == name && cells[i].Some?
  }

  /** Column `i` is the last before `n` to do so. */
  predicate LastGives(cols: seq<Column>, cells: seq<Option<int>>, i: nat, n: nat, name: string)
    requires i < n <= |cols| == |cells|
  {
    Gives(cols, cells, i, name) && forall j :: i < j < n ==> !Gives(cols, cells, j, name)
  }

  /** A single field of a row is set if and only if some column gives it a value, and it has the value of the last one. */
  lemma {:induction false} SinglesAreColumns(fields: seq<Field>, cols: seq<Column>, cells: seq<Option<int>>, n: nat, name: string)
    requires n <= |cols| == |cells| && ParsedTo(fields, cols, cells, n).Some?
    ensures var single := ParsedTo(fields, cols, cells, n).value.single;
            && (name in single <==> exists i :: 0 <= i < n && Gives(cols, cells, i, name))
            && forall i :: 0 <= i < n && LastGives(cols, cells, i, n, name) ==>
                 name in single && single[name] == cells[i].value
  {
    if n > 0 {
      SinglesAreColumns(fields, cols, cells, n - 1, name);
      SingleStep(ParsedTo(fields, cols, cells, n - 1).value, fields, cols, cells, n - 1, name);
      hide AddField, Gives;
    }
  }

  lemma SingleStep(item: Item, fields: seq<Field>, cols: seq<Column>, cells: seq<Option<int>>, i: nat, name: string)
    requires i < |cols| == |cells| && AddField(item, fields, cols[i], cells[i]).Some?
    ensures var single := AddField(item, fields, cols[i], cells[i]).value.single;
            if Gives(cols, cells, i, name) then name in single && single[name] == cells[i].value
            else (name in single <==> name in item.single) && (name in item.single ==> single[name] == item.single[name])
  {
    hide InScope, IsArray, BaseName, Declared, Elements;
  }

  /** The places before `n` of the columns that add to the array. */
  ghost function Adding(cols: seq<Column>, cells: seq<Option<int>>, n: nat, name: string): set<nat>
    requires n <= |cols| == |cells|
  {
    set i: nat | i < n && InScope(cols[i]) && IsArray(cols[i]) && BaseName(cols[i]) == name && cells[i].Some?
  }

  lemma AddingNext(cols: seq<Column>, cells: seq<Option<int>>, n: nat, name: string)
    requires n < |cols| == |cells|
    ensures Adding(cols, cells, n + 1, name)
         == if InScope(cols[n]) && IsArray(cols[n]) && BaseName(cols[n]) == name && cells[n].Some?
            then Adding(cols, cells, n, name) + {n} else Adding(cols, cells, n, name)
    ensures n !in Adding(cols, cells, n, name)
  {
    hide InScope, IsArray, BaseName;
  }

  /** The values of an array are those of the columns that add to it, each at the place that counts the ones before. */
  lemma {:induction false} ColumnValuesAre(cols: seq<Column>, cells: seq<Option<int>>, n: nat, name: string)
    requires n <= |cols| == |cells|
    ensures |ColumnValues(cols, cells, n, name)| == |Adding(cols, cells, n, name)|
    ensures forall i :: i in Adding(cols, cells, n, name) ==>
              var k := |Adding(cols, cells, i, name)|;
              k < |ColumnValues(cols, cells, n, name)| && ColumnValues(cols, cells, n, name)[k] == cells[i].value
  {
    hide InScope, IsArray, BaseName, Adding;
    if n == 0 {
      NothingAdding(cols, cells, name);
    } else {
      ColumnValuesAre(cols, cells, n - 1, name);
      AddingNext(cols, cells, n - 1, name);
    }
  }

  lemma NothingAdding(cols: seq<Column>, cells: seq<Option<int>>, name: string)
    requires |cols| == |cells|
    ensures Adding(cols, cells, 0, name) == {}
  {
  }

  /** An in-scope array column of the row has no value. */
  predicate MissingBefore(cols: seq<Column>, cells: seq<Option<int>>, n: nat)
    requires n <= |cols| == |cells|
  {
    exists i :: 0 <= i < n && InScope(cols[i]) && IsArray(cols[i]) && cells[i].None?
  }

  lemma {:induction false} RowParsesTo(cols: seq<Column>, cells: seq<Option<int>>, n: nat)
    requires n <= |cols| == |cells| && PassesAgree(cols)
    ensures ParsedTo(SchemaOf(cols).fields, cols, cells, n).Some? <==> !MissingBefore(cols, cells, n)
  {
    if n > 0 {
      RowParsesTo(cols, cells, n - 1);
      var c := cols[n - 1];
      assert InScope(c) ==> Declared(SchemaOf(cols).fields, BaseName(c), RuleOf(c));
      ArrayKinds(c);
      SingleBase(c);
      hide InScope, IsArray, BaseName, Declared, SchemaOf, PassesAgree, RuleOf, Elements;
    }
  }

  lemma SingleBase(c: Column)
    ensures !IsArray(c) ==> BaseName(c) == c.name
  {
  }

  /** No name is declared twice: only then is the generated file accepted, and the data pass has fields to fill. */
  predicate NamesDistinct(fields: seq<Field>) {
    forall i, j :: 0 <= i < j < |fields| ==> fields[i].name != fields[j].name
  }

  /** A whole row, from the file that was generated. */
  function RowOf(fields: seq<Field>, cols: seq<Column>, cells: seq<Option<int>>): Option<Item>
    requires |cols| == |cells|
  {
    if NamesDistinct(fields) then ParsedTo(fields, cols, cells, |cols|) else None
  }

  /** When the passes agree, a row is parsed if and only if no name is declared twice and none of the row's array cells
      is empty, and then each array holds one element for each of its columns, in column order, and each single field is
      set exactly if some column gives it a value, to the value of the last such column. */
  lemma RowIsParsed(cols: seq<Column>, cells: seq<Option<int>>, name: string)
    requires |cols| == |cells| && PassesAgree(cols)
    ensures var r := RowOf(SchemaOf(cols).fields, cols, cells);
            && (r.Some? <==> DistinctTo(cols, |cols|) && !MissingBefore(cols, cells, |cols|))
            && (r.Some? ==> Elements(r.value, name) == ColumnValues(cols, cells, |cols|, name))
            && (r.Some? ==> (name in r.value.single <==> exists i :: 0 <= i < |cols| && Gives(cols, cells, i, name)))
            && (r.Some? ==> forall i :: 0 <= i < |cols| && LastGives(cols, cells, i, |cols|, name) ==>
                              name in r.value.single && r.value.single[name] == cells[i].value)
  {
    RowParsesTo(cols, cells, |cols|);
    NamesDistinctExactly(cols, |cols|);
    hide PassesAgree, MissingBefore, NamesDistinct, DistinctTo, Gives, LastGives, ParsedTo, ColumnValues, Elements;
    var fields := SchemaOf(cols).fields;
    if ParsedTo(fields, cols, cells, |cols|).Some? {
      ElementsAreColumns(fields, cols, cells, |cols|, name);
      SinglesAreColumns(fields, cols, cells, |cols|, name);
    }
  }

  // ----- names declared twice -----

  /** Column `i` adds a line to the schema: an array with an index only the first time its name is seen. */
  predicate Introduces(cols: seq<Column>, i: nat)
    requires i < |cols|
  {
    InScope(cols[i]) && !(IsIndexed(cols[i]) && (PlainBefore(cols, i) || IndexedBefore(cols, i, BaseName(cols[i]))))
  }

  /** In the header cells: a column in scope adds a line unless it is an array with an index and some array in scope before
      it has no index, or has one and the same name. */
  lemma IntroducesExactly(cols: seq<Column>, i: nat)
    requires i < |cols|
    ensures Introduces(cols, i) <==>
              && (cols[i].scope == "all" || cols[i].scope == "server")
              && !("array" <= cols[i].rule && '[' in cols[i].name
                   && exists j :: 0 <= j < i && (cols[j].scope == "all" || cols[j].scope == "server")
                                  && "array" <= cols[j].rule
                                  && ('[' !in cols[j].name || BaseName(cols[j]) == BaseName(cols[i])))
  {
    hide InScope, IsIndexed, IsPlainArray, BaseName;
    forall j | 0 <= j <= i
      ensures InScope(cols[j]) <==> cols[j].scope == "all" || cols[j].scope == "server"
      ensures IsIndexed(cols[j]) <==> "array" <= cols[j].rule && '[' in cols[j].name
      ensures IsPlainArray(cols[j]) <==> "array" <= cols[j].rule && '[' !in cols[j].name
    {
      HeaderCells(cols[j]);
    }
  }

  predicate IntroducedBefore(cols: seq<Column>, n: nat, name: string)
    requires n <= |cols|
  {
    exists i :: 0 <= i < n && Introduces(cols, i) && DeclaredName(BaseName(cols[i])) == name
  }

  /** No two of the first `n` columns add lines with the same name. */
  predicate DistinctTo(cols: seq<Column>, n: nat)
    requires n <= |cols|
  {
    forall i :: 0 <= i < n && Introduces(cols, i) ==> !IntroducedBefore(cols, i, DeclaredName(BaseName(cols[i])))
  }

  predicate HasName(fields: seq<Field>, name: string) {
    exists i :: 0 <= i < |fields| && fields[i].name == name
  }

  lemma FieldAdded(fields: seq<Field>, f: Field, name: string)
    ensures HasName(fields + [f], name) <==> HasName(fields, name) || f.name == name
    ensures NamesDistinct(fields + [f]) <==> NamesDistinct(fields) && !HasName(fields, f.name)
  {
    var more := fields + [f];
    if i :| 0 <= i < |fields| && fields[i].name == name {
      assert more[i].name == name;
    }
    assert more[|fields|] == f;
    if NamesDistinct(more) {
      forall i | 0 <= i < |fields| ensures fields[i].name != f.name {
        assert more[i].name != more[|fields|].name;
      }
      forall i, j | 0 <= i < j < |fields| ensures fields[i].name != fields[j].name {
        assert more[i].name != more[j].name;
      }
    }
  }

  lemma IntroducedNext(cols: seq<Column>, n: nat, name: string)
    requires n < |cols|
    ensures IntroducedBefore(cols, n + 1, name)
       <==> IntroducedBefore(cols, n, name) || (Introduces(cols, n) && DeclaredName(BaseName(cols[n])) == name)
    ensures DistinctTo(cols, n + 1)
       <==> DistinctTo(cols, n)
            && (Introduces(cols, n) ==> !IntroducedBefore(cols, n, DeclaredName(BaseName(cols[n]))))
  {
    hide Introduces, DeclaredName, BaseName;
  }

  /** The schema grows by a line with the column's name exactly when the column introduces one. */
  lemma GrowsExactly(cols: seq<Column>, n: nat)
    requires n < |cols| && InterpretedTo(cols, n + 1).Schema?
    ensures InterpretedTo(cols, n).Schema?
    ensures var before, after, c := InterpretedTo(cols, n).fields, InterpretedTo(cols, n + 1).fields, cols[n];
            if Introduces(cols, n)
            then after == before + [Layout(RuleOf(c), TypeOf(c), BaseName(c), |before| + 1)]
                 && after[|before|].name == DeclaredName(BaseName(c))
            else after == before
  {
    var s, c := InterpretedTo(cols, n), cols[n];
    SeenOverColumns(cols, n);
    ArrayKinds(c);
    if s.Schema? {
      NumbersHaveNoGaps(cols, n);
      LayoutKeeps(RuleOf(c), TypeOf(c), BaseName(c), s.next);
    }
    hide InScope, IsIndexed, IsPlainArray, IsArray, BaseName, RuleOf, TypeOf, Layout, DeclaredName, PlainBefore, LastPlain,
         IndexedBefore, BreaksBefore, Contains, Find;
  }

  /** No name is declared twice if and only if no two columns introduce the same one. */
  lemma {:induction false} NamesDistinctExactly(cols: seq<Column>, n: nat)
    requires n <= |cols| && InterpretedTo(cols, n).Schema?
    ensures NamesDistinct(InterpretedTo(cols, n).fields) <==> DistinctTo(cols, n)
    ensures forall name :: HasName(InterpretedTo(cols, n).fields, name) <==> IntroducedBefore(cols, n, name)
  {
    hide *;
    if n == 0 {
      NothingNamed(cols);
    } else {
      InterpretedNext(cols, n - 1);
      NamesDistinctExactly(cols, n - 1);
      forall name ensures HasName(InterpretedTo(cols, n).fields, name) <==> IntroducedBefore(cols, n, name) {
        NameStep(cols, n - 1, name);
      }
      NameStep(cols, n - 1, "");
    }
  }

  lemma NothingNamed(cols: seq<Column>)
    requires InterpretedTo(cols, 0).Schema?
    ensures NamesDistinct(InterpretedTo(cols, 0).fields) && DistinctTo(cols, 0)
    ensures forall name :: !HasName(InterpretedTo(cols, 0).fields, name) && !IntroducedBefore(cols, 0, name)
  {
    hide Introduces;
  }

  lemma NameStep(cols: seq<Column>, n: nat, name: string)
    requires n < |cols| && InterpretedTo(cols, n + 1).Schema? && InterpretedTo(cols, n).Schema?
    requires NamesDistinct(InterpretedTo(cols, n).fields) <==> DistinctTo(cols, n)
    requires forall other :: HasName(InterpretedTo(cols, n).fields, other) <==> IntroducedBefore(cols, n, other)
    ensures HasName(InterpretedTo(cols, n + 1).fields, name) <==> IntroducedBefore(cols, n + 1, name)
    ensures NamesDistinct(InterpretedTo(cols, n + 1).fields) <==> DistinctTo(cols, n + 1)
  {
    hide *;
    GrowsExactly(cols, n);
    IntroducedNext(cols, n, name);
    var before, after := InterpretedTo(cols, n).fields, InterpretedTo(cols, n + 1).fields;
    if Introduces(cols, n) {
      assert after == before + [after[|before|]];
      FieldAdded(before, after[|before|], name);
    }
  }

  // ----- the two classes -----

  /** The first pass. */
  class SheetInterpreter {
    const cols: seq<Column>
    var col: nat
    var output: seq<Field>
    var fieldIndexList: seq<nat>
    var repeatedNameNow: Seen

    constructor (cols: seq<Column>)
      ensures this.cols == cols && col == 0 && Valid() && State() == START
    {
      this.cols, col, output, fieldIndexList, repeatedNameNow := cols, 0, [], [1], Names({});
    }

    ghost predicate Valid()
      reads this
    {
      fieldIndexList != []
    }

    ghost function State(): Schema
      requires Valid()
      reads this
    {
      Schema(repeatedNameNow, output, fieldIndexList[|fieldIndexList| - 1])
    }

    /** Defines every column in turn; false when the pass crashes. */
    method Interpreted() returns (ok: bool)
      requires Valid() && col == 0 && State() == START
      modifies this
      ensures Valid()
      ensures SchemaOf(cols) == if ok then State() else Crashed
    {
      hide Define;
      ok := true;
      while col < |cols| && ok
        invariant Valid() && col <= |cols|
        invariant if ok then InterpretedTo(cols, col) == State() else SchemaOf(cols) == Crashed
        decreases |cols| - col, ok
      {
        ghost var before := col;
        ok := FieldDefine();
        if !ok {
          CrashStays(cols, before + 1, |cols|);
        }
      }
    }

    method FieldDefine() returns (ok: bool)
      requires Valid() && col < |cols|
      modifies this
      ensures Valid() && Define(old(State()), cols[old(col)]) == if ok then State() else Crashed
      ensures ok ==> col == old(col) + 1
      ensures !ok ==> col == old(col)
    {
      hide Find, InScope, IsIndexed, IsPlainArray, BaseName, RuleOf, TypeOf, Layout, AlreadySeen;
      var c := cols[col];
      ok := true;
      if !InScope(c) {
        col := col + 1;
        return;
      }
      if IsIndexed(c) {
        if AlreadySeen(repeatedNameNow, BaseName(c)) {
          col := col + 1;
          return;
        }
        if repeatedNameNow.Text? {
          return false;
        }
        repeatedNameNow := Names(repeatedNameNow.names + {BaseName(c)});
      } else if IsPlainArray(c) {
        repeatedNameNow := Text(c.name);
      }
      LayoutOneField(RuleOf(c), TypeOf(c), BaseName(c));
      col := col + 1;
    }

    /** Writes the line of one field. */
    method LayoutOneField(rule: Rule, typ: string, name: string)
      requires Valid()
      modifies this`output, this`fieldIndexList
      ensures Valid() && output == old(output) + [Layout(rule, typ, name, old(State()).next)]
      ensures State().next == old(State()).next + 1
    {
      hide Find, DeclaredName, DefaultText, IsNumber;
      var index := GetAndAddFieldIndex();
      if Find(name, '=') > 0 {
        output := output + [Field(rule, typ, DeclaredName(name), index, Some(DefaultText(name)))];
        return;
      }
      if rule != Single {
        output := output + [Field(rule, typ, name, index, None)];
        return;
      }
      if IsNumber(typ) {
        output := output + [Field(rule, typ, name, index, Some("0"))];
      } else if typ == "string" || typ == "bytes" {
        output := output + [Field(rule, typ, name, index, Some("\"\""))];
      } else if typ == "DateTime" || typ == "TimeDuration" {
        output := output + [Field(rule, "uint64", name, index, Some("0"))];
      } else {
        output := output + [Field(rule, typ, name, index, None)];
      }
    }

    method GetAndAddFieldIndex() returns (index: nat)
      requires Valid()
      modifies this`fieldIndexList
      ensures Valid() && index == old(State()).next && State().next == index + 1
    {
      var last := |fieldIndexList| - 1;
      index := fieldIndexList[last];
      fieldIndexList := fieldIndexList[last := index + 1];
    }
  }

  lemma {:induction false} CrashStays(cols: seq<Column>, m: nat, n: nat)
    requires m <= n <= |cols| && InterpretedTo(cols, m).Crashed?
    ensures InterpretedTo(cols, n).Crashed?
  {
    if m < n {
      CrashStays(cols, m, n - 1);
    }
  }

  /** The second pass, over the fields the first one declared. */
  class DataParser {
    const cols: seq<Column>
    const fields: seq<Field>
    /** Whether the generated file could be loaded. */
    const loaded := NamesDistinct(fields)
    var col: nat

    constructor (cols: seq<Column>, fields: seq<Field>)
      ensures this.cols == cols && this.fields == fields && col == 0
    {
      this.cols, this.fields, col := cols, fields, 0;
    }

    /** One row; None when there are no fields to fill, or when the pass crashes on the row. */
    method ParseLine(cells: seq<Option<int>>) returns (item: Option<Item>)
      requires |cells| == |cols|
      modifies this`col
      ensures item == RowOf(fields, cols, cells)
    {
      hide AddField, NamesDistinct;
      if !loaded {
        return None;
      }
      col := 0;
      item := Some(NO_ITEM);
      while col < |cols| && item.Some?
        invariant col <= |cols| && item == ParsedTo(fields, cols, cells, col)
        decreases |cols| - col
      {
        item := ParseField(item.value, cells);
      }
      if item.None? {
        NoRow(fields, cols, cells, col, |cols|);
      }
    }

    method ParseField(item: Item, cells: seq<Option<int>>) returns (next: Option<Item>)
      requires |cells| == |cols| && col < |cols|
      modifies this`col
      ensures next == AddField(item, fields, cols[old(col)], cells[old(col)]) && col == old(col) + 1
    {
      hide InScope, IsArray, BaseName, Declared, Elements;
      var c, cell := cols[col], cells[col];
      col := col + 1;
      if !InScope(c) {
        return Some(item);
      }
      if IsArray(c) {
        if !Declared(fields, BaseName(c), Repeated) || cell.None? {
          return None;
        }
        var elements := Elements(item, BaseName(c)) + [cell.value];
        return Some(item.(repeated := item.repeated[BaseName(c) := elements]));
      }
      if cell.None? {
        return Some(item);
      }
      if !Declared(fields, c.name, Single) {
        return None;
      }
      next := Some(item.(single := item.single[c.name := cell.value]));
    }
  }

  lemma {:induction false} NoRow(fields: seq<Field>, cols: seq<Column>, cells: seq<Option<int>>, m: nat, n: nat)
    requires m <= n <= |cols| == |cells| && ParsedTo(fields, cols, cells, m).None?
    ensures ParsedTo(fields, cols, cells, n).None?
  {
    if m < n {
      NoRow(fields, cols, cells, m, n - 1);
    }
  }
}
