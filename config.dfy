/** `StructWriter` and its validation from a TOML document, `StructWriter::from_toml`. */
module Config {
  import opened Wrappers
  import opened Toml
  import Text

  /** One declared field: its identifier and its type text. */
  datatype Field = Field(name: string, ty: string)

  /** The validated declaration that every `write_*` function reads. */
  datatype StructWriter = StructWriter(
    name: string,
    moduleName: string,
    lt: string,
    imports: seq<string>,
    fields: seq<Field>)

  // The error messages, word for word.
  const SyntaxPrefix := "is not valid TOML: "
  const NameError := " - missing or invalid 'name' key"
  const FieldsError := " - missing or invalid 'fields' key"
  const NotArrayError := " - all fields are not arrays"
  const PairError := " - field subarray must be two strings"

  /** What is wrong with one entry of `fields`, checked in the order the code checks it. */
  function EntryError(f: Value): Option<string> {
    if !f.Array? then Some(NotArrayError)
    else if AsStr(At(f.items, 0)).None? then Some(PairError)
    else if AsStr(At(f.items, 1)).None? then Some(PairError)
    else None
  }

  predicate EntryOk(f: Value) {
    EntryError(f).None?
  }

  /** The (identifier, type) pair an acceptable entry yields; elements past the second are ignored. */
  function EntryField(f: Value): Field
    requires EntryOk(f)
  {
    Field(f.items[0].str, f.items[1].str)
  }

  /** The position of the first unacceptable entry, or `|vs|` when every entry is acceptable. */
  function FirstBadEntry(vs: seq<Value>): (i: nat)
    ensures i <= |vs|
    ensures forall j :: 0 <= j < i ==> EntryOk(vs[j])
    ensures i < |vs| ==> !EntryOk(vs[i])
  {
    if vs == [] then 0
    else if !EntryOk(vs[0]) then 0
    else 1 + FirstBadEntry(vs[1..])
  }

  /** `filter_map(as_str)`: the string entries of a list, in order, the rest dropped. */
  function StringsOf(vs: seq<Value>): (r: seq<string>)
    ensures |r| <= |vs|
    ensures forall x :: x in r <==> String(x) in vs
  {
    if vs == [] then []
    else if vs[0].String? then [vs[0].str] + StringsOf(vs[1..])
    else StringsOf(vs[1..])
  }

  /** A single entry contributes its string, or nothing when it is not a string. */
  lemma StringsOfOne(v: Value)
    ensures StringsOf([v]) == if v.String? then [v.str] else []
  {
    assert [v][1..] == [];
  }

  /**
   * `filter_map` respects concatenation: the strings of `a + b` are the strings of `a`
   * followed by the strings of `b`. With `StringsOfOne` this fixes the imports as the string
   * entries of `use`, in their order, duplicates kept.
   */
  lemma {:induction false} StringsOfConcat(a: seq<Value>, b: seq<Value>)
    ensures StringsOf(a + b) == StringsOf(a) + StringsOf(b)
    decreases |a|
  {
    if a == [] {
      assert a + b == b;
    } else {
      assert (a + b)[0] == a[0];
      assert (a + b)[1..] == a[1..] + b;
      StringsOfConcat(a[1..], b);
    }
  }

  /** The `module` key when it is a string, otherwise the lower-cased name. */
  function ModuleOf(root: map<string, Value>, name: string): string {
    var m := AsStr(Get(root, "module"));
    if m.Some? then m.value else Text.ToLower(name)
  }

  /** The `use` list, or no imports when the key is absent or not an array. */
  function UseOf(root: map<string, Value>): seq<Value> {
    var u := AsSlice(Get(root, "use"));
    if u.Some? then u.value else []
  }

  /**
   * What `from_toml` produces, stated declaratively: the first failing check decides
   * the error; otherwise every entry of `fields` becomes a field, in order.
   */
  function Configure(doc: Document): Result<StructWriter> {
    match doc
    case Invalid(errors) => Err(SyntaxPrefix + errors)
    case Parsed(root) =>
      var name := AsStr(Get(root, "name"));
      var vfields := AsSlice(Get(root, "fields"));
      if name.None? then Err(NameError)
      else if vfields.None? then Err(FieldsError)
      else
        var vs := vfields.value;
        var bad := FirstBadEntry(vs);
        if bad < |vs| then Err(EntryError(vs[bad]).value)
        else
          var modName := ModuleOf(root, name.value);
          Ok(StructWriter(name.value, modName, "'" + modName, StringsOf(UseOf(root)),
                          seq(|vs|, j requires 0 <= j < |vs| => EntryField(vs[j]))))
  }

  /** `StructWriter::from_toml`, with its loop over the entries of `fields`. */
  method FromToml(doc: Document) returns (r: Result<StructWriter>)
    ensures r == Configure(doc)
  {
    if doc.Invalid? {
      return Err(SyntaxPrefix + doc.errors);
    }
    var v := doc.root;
    var name := AsStr(Get(v, "name"));
    if name.None? {
      return Err(NameError);
    }
    var modName := ModuleOf(v, name.value);
    var lt := "'" + modName;
    var imports := StringsOf(UseOf(v));

    var fields: seq<Field> := [];
    var vfields := AsSlice(Get(v, "fields"));
    if vfields.None? {
      return Err(FieldsError);
    }
    var vs := vfields.value;
    var i := 0;
    while i < |vs|
      invariant 0 <= i <= |vs|
      invariant |fields| == i
      invariant forall j :: 0 <= j < i ==> EntryOk(vs[j]) && fields[j] == EntryField(vs[j])
    {
      var f := vs[i];
      if !f.Array? {
        return Err(NotArrayError);
      }
      var k := AsStr(At(f.items, 0));
      if k.None? {
        return Err(PairError);
      }
      var ty := AsStr(At(f.items, 1));
      if ty.None? {
        return Err(PairError);
      }
      fields := fields + [Field(k.value, ty.value)];
      i := i + 1;
    }
    assert fields == seq(|vs|, j requires 0 <= j < |vs| => EntryField(vs[j]));
    r := Ok(StructWriter(name.value, modName, lt, imports, fields));
  }

  /** The root table of a document that has one that passes every check. */
  predicate Acceptable(doc: Document) {
    && doc.Parsed?
    && AsStr(Get(doc.root, "name")).Some?
    && AsSlice(Get(doc.root, "fields")).Some?
    && forall j :: 0 <= j < |AsSlice(Get(doc.root, "fields")).value| ==>
         EntryOk(AsSlice(Get(doc.root, "fields")).value[j])
  }

  /**
   * The configuration is accepted exactly when the document parsed, `name` is a string,
   * `fields` is an array, and every entry is an array whose first two elements are strings.
   */
  lemma AcceptedIff(doc: Document)
    ensures Configure(doc).Ok? <==> Acceptable(doc)
  {
    if doc.Parsed? && AsStr(Get(doc.root, "name")).Some? && AsSlice(Get(doc.root, "fields")).Some? {
      var vs := AsSlice(Get(doc.root, "fields")).value;
      var bad := FirstBadEntry(vs);
      if bad < |vs| {
        assert !EntryOk(vs[bad]);
      }
    }
  }

  /** Each rejection carries the message of the first check that fails. */
  lemma ErrorMessages(doc: Document)
    ensures doc.Invalid? ==> Configure(doc) == Err(SyntaxPrefix + doc.errors)
    ensures doc.Parsed? && AsStr(Get(doc.root, "name")).None? ==> Configure(doc) == Err(NameError)
    ensures doc.Parsed? && AsStr(Get(doc.root, "name")).Some? && AsSlice(Get(doc.root, "fields")).None?
            ==> Configure(doc) == Err(FieldsError)
    ensures doc.Parsed? && AsStr(Get(doc.root, "name")).Some? && AsSlice(Get(doc.root, "fields")).Some?
            ==> var vs := AsSlice(Get(doc.root, "fields")).value;
                var bad := FirstBadEntry(vs);
                bad < |vs| ==> Configure(doc) == Err(EntryError(vs[bad]).value)
  {
  }

  /**
   * An accepted configuration: `module` defaults to the lower-cased name, the lifetime is
   * `'` followed by the module, the imports are the string entries of `use`, and the fields
   * are the entries of `fields` in declaration order.
   */
  lemma AcceptedContents(doc: Document)
    requires Configure(doc).Ok?
    ensures var w := Configure(doc).value;
            var root := doc.root;
            var vs := AsSlice(Get(root, "fields")).value;
            && Some(w.name) == AsStr(Get(root, "name"))
            && w.moduleName == (if AsStr(Get(root, "module")).Some? then AsStr(Get(root, "module")).value
                                else Text.ToLower(w.name))
            && w.lt == "'" + w.moduleName
            && (AsSlice(Get(root, "use")).None? ==> w.imports == [])
            && (AsSlice(Get(root, "use")).Some? ==> w.imports == StringsOf(AsSlice(Get(root, "use")).value))
            && (forall x :: x in w.imports <==> AsSlice(Get(root, "use")).Some? && String(x) in AsSlice(Get(root, "use")).value)
            && |w.fields| == |vs|
            && forall j :: 0 <= j < |vs| ==>
                 (vs[j].Array? && |vs[j].items| >= 2
                  && w.fields[j] == Field(vs[j].items[0].str, vs[j].items[1].str))
  {
    var vs := AsSlice(Get(doc.root, "fields")).value;
    forall j | 0 <= j < |vs| ensures EntryOk(vs[j]) {
      AcceptedIff(doc);
    }
  }

  /**
   * Neither `module` nor `use` can make validation fail, and any key the code never reads
   * (such as `namespace`) changes nothing at all.
   */
  lemma OptionalKeysNeverReject(root: map<string, Value>, key: string, v: Value)
    ensures key == "module" || key == "use" ==>
              Configure(Parsed(root[key := v])).Ok? == Configure(Parsed(root)).Ok?
    ensures key !in {"name", "module", "use", "fields"} ==>
              Configure(Parsed(root[key := v])) == Configure(Parsed(root))
  {
    var root' := root[key := v];
    if key !in {"name", "module", "use", "fields"} {
      assert Get(root', "name") == Get(root, "name");
      assert Get(root', "fields") == Get(root, "fields");
      assert Get(root', "module") == Get(root, "module");
      assert Get(root', "use") == Get(root, "use");
    }
  }
}
