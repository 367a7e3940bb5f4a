/**
 * The form-metadata engine of internal/platform/form.go: the `form` tag
 * parser, the schema extractor and the binder that writes submitted
 * values into a record in place.
 */
module Form {
  import opened Wrappers
  import opened GoStrings
  import opened GoStrconv
  import opened Fields

  /** The description of one form field, as the page renderer receives it. */
  datatype FieldSpec = FieldSpec(
    Name: string,
    Label: string,
    Type: string,          // text, number, textarea, select, multiselect, radio, checkbox, or anything else
    Required: bool,
    Options: seq<string>,
    Placeholder: string,
    DefaultValue: string)

  /** The presentation type a field gets when its tag names none: always "text". */
  function InferTypeByKind(fieldName: string): (t: string)
    ensures t == "text"
  {
    "text"
  }

  // ---------------------------------------------------------------------------
  // The tag grammar, stated declaratively

  /** One comma-separated part of a tag, trimmed and cut at its first `=`; None without `=`. */
  function KeyValue(part: string): Option<(string, string)>
  {
    SplitAtFirst(TrimSpace(part), '=')
  }

  /** The key/value pairs among `parts`, in order; parts without `=` contribute nothing. */
  function PairsOf(parts: seq<string>): seq<(string, string)>
  {
    if parts == [] then []
    else
      var last := match KeyValue(parts[|parts| - 1]) case Some(kv) => [kv] case None => [];
      PairsOf(parts[..|parts| - 1]) + last
  }

  /** The key/value pairs of a whole tag. */
  function TagPairs(tag: string): seq<(string, string)>
  {
    PairsOf(Split(tag, ','))
  }

  /** The attributes a tag can set, and the keys that name them. */
  datatype Key = NameKey | LabelKey | TypeKey | RequiredKey | OptionsKey | PlaceholderKey | DefaultKey | OtherKey

  /** The tag keys the switch of `parseTag` recognises. */
  const KeyNames: set<string> := {"name", "label", "type", "required", "options", "placeholder", "default"}

  /** The tag key that names `key`. */
  function KeyName(key: Key): string
    requires key != OtherKey
  {
    match key
    case NameKey => "name"
    case LabelKey => "label"
    case TypeKey => "type"
    case RequiredKey => "required"
    case OptionsKey => "options"
    case PlaceholderKey => "placeholder"
    case DefaultKey => "default"
  }

  /** The attribute a tag key names; any key but the seven listed names none. */
  function KeyOf(k: string): Key
  {
    if k == "name" then NameKey
    else if k == "label" then LabelKey
    else if k == "type" then TypeKey
    else if k == "required" then RequiredKey
    else if k == "options" then OptionsKey
    else if k == "placeholder" then PlaceholderKey
    else if k == "default" then DefaultKey
    else OtherKey
  }

  /** Pair `kv` sets the attribute `key`; an empty `options` value sets nothing. */
  predicate Takes(kv: (string, string), key: Key)
  {
    KeyOf(kv.0) == key && (key != OptionsKey || kv.1 != "")
  }

  /** The value of the last pair that sets `key`. */
  function LastValue(kvs: seq<(string, string)>, key: Key): Option<string>
  {
    if kvs == [] then None
    else
      var kv := kvs[|kvs| - 1];
      if Takes(kv, key) then Some(kv.1) else LastValue(kvs[..|kvs| - 1], key)
  }

  /** The value a tag gives `key`, if any. */
  function TagValue(tag: string, key: Key): Option<string>
  {
    LastValue(TagPairs(tag), key)
  }

  /** The description of a field whose tag sets nothing. */
  function Defaults(fieldName: string): FieldSpec
  {
    FieldSpec(fieldName, "", InferTypeByKind(fieldName), false, [], "", "")
  }

  /** What one `k=v` pair with `KeyOf(k) == key` does to a description: set the one attribute `key` names. */
  function Update(fs: FieldSpec, key: Key, v: string): FieldSpec
  {
    match key
    case NameKey => fs.(Name := v)
    case LabelKey => fs.(Label := v)
    case TypeKey => fs.(Type := v)
    case RequiredKey => fs.(Required := v == "true")
    case OptionsKey => if v != "" then fs.(Options := Split(v, '|')) else fs
    case PlaceholderKey => fs.(Placeholder := v)
    case DefaultKey => fs.(DefaultValue := v)
    case OtherKey => fs
  }

  /** Exactly the seven keys of the switch name an attribute, and each names the attribute it spells. */
  lemma KeyOfNames(k: string)
    ensures KeyOf(k) == OtherKey <==> k !in KeyNames
    ensures KeyOf(k) != OtherKey ==> KeyName(KeyOf(k)) == k
  {
  }

  /** An update sets the one attribute its key names and leaves the other six as they were. */
  lemma UpdateSetsOneAttribute(fs: FieldSpec, key: Key, v: string)
    ensures var r := Update(fs, key, v);
      && r.Name == (if key == NameKey then v else fs.Name)
      && r.Label == (if key == LabelKey then v else fs.Label)
      && r.Type == (if key == TypeKey then v else fs.Type)
      && r.Required == (if key == RequiredKey then v == "true" else fs.Required)
      && r.Options == (if key == OptionsKey && v != "" then Split(v, '|') else fs.Options)
      && r.Placeholder == (if key == PlaceholderKey then v else fs.Placeholder)
      && r.DefaultValue == (if key == DefaultKey then v else fs.DefaultValue)
  {
  }

  /** The description a list of pairs yields for a field declared as `fieldName`: the pairs applied left to right. */
  function Describe(fieldName: string, kvs: seq<(string, string)>): FieldSpec
  {
    if kvs == [] then Defaults(fieldName)
    else
      var kv := kvs[|kvs| - 1];
      Update(Describe(fieldName, kvs[..|kvs| - 1]), KeyOf(kv.0), kv.1)
  }

  /** One more pair changes the description as `Update` says. */
  lemma DescribeSnoc(fieldName: string, kvs: seq<(string, string)>, kv: (string, string))
    ensures Describe(fieldName, kvs + [kv]) == Update(Describe(fieldName, kvs), KeyOf(kv.0), kv.1)
  {
    assert (kvs + [kv])[..|kvs|] == kvs;
  }

  /**
   * Every attribute of a description is the value of the last pair that sets it,
   * or its default when no pair does.
   */
  lemma {:induction false} DescribeByLastValue(fieldName: string, kvs: seq<(string, string)>)
    ensures var fs := Describe(fieldName, kvs);
      && fs.Name == LastValue(kvs, NameKey).GetOr(fieldName)
      && fs.Label == LastValue(kvs, LabelKey).GetOr("")
      && fs.Type == LastValue(kvs, TypeKey).GetOr(InferTypeByKind(fieldName))
      && fs.Required == (LastValue(kvs, RequiredKey) == Some("true"))
      && fs.Options == (match LastValue(kvs, OptionsKey) case Some(v) => Split(v, '|') case None => [])
      && fs.Placeholder == LastValue(kvs, PlaceholderKey).GetOr("")
      && fs.DefaultValue == LastValue(kvs, DefaultKey).GetOr("")
  {
    if kvs != [] {
      var n := |kvs| - 1;
      DescribeByLastValue(fieldName, kvs[..n]);
      assert kvs == kvs[..n] + [kvs[n]];
      LastValueSnoc(kvs[..n], kvs[n], NameKey);
      LastValueSnoc(kvs[..n], kvs[n], LabelKey);
      LastValueSnoc(kvs[..n], kvs[n], TypeKey);
      LastValueSnoc(kvs[..n], kvs[n], RequiredKey);
      LastValueSnoc(kvs[..n], kvs[n], OptionsKey);
      LastValueSnoc(kvs[..n], kvs[n], PlaceholderKey);
      LastValueSnoc(kvs[..n], kvs[n], DefaultKey);
    }
  }

  /** The field description a tag yields. */
  function SpecOf(fieldName: string, tag: string): FieldSpec
  {
    Describe(fieldName, TagPairs(tag))
  }

  lemma PairsOfSnoc(parts: seq<string>, p: string)
    ensures PairsOf(parts + [p]) == PairsOf(parts) + match KeyValue(p) case Some(kv) => [kv] case None => []
  {
    assert (parts + [p])[..|parts|] == parts;
  }

  lemma PairsOfPrefix(parts: seq<string>, i: nat)
    requires i < |parts|
    ensures PairsOf(parts[..i + 1]) == PairsOf(parts[..i]) + match KeyValue(parts[i]) case Some(kv) => [kv] case None => []
  {
    assert parts[..i + 1] == parts[..i] + [parts[i]];
    PairsOfSnoc(parts[..i], parts[i]);
  }

  lemma LastValueSnoc(kvs: seq<(string, string)>, kv: (string, string), key: Key)
    ensures LastValue(kvs + [kv], key) == if Takes(kv, key) then Some(kv.1) else LastValue(kvs, key)
  {
    assert (kvs + [kv])[..|kvs|] == kvs;
  }

  // ---------------------------------------------------------------------------
  // parseTag

  /** Go's `parseTag`: the description of a field from its declared name and `form` tag. */
  method ParseTag(fieldName: string, tag: string) returns (fs: FieldSpec)
    ensures fs == SpecOf(fieldName, tag)
  {
    fs := FieldSpec(fieldName, "", InferTypeByKind(fieldName), false, [], "", "");
    if tag == "" {
      EmptyTagHasNoPairs();
      return;
    }
    var parts := Split(tag, ',');
    ghost var ps: seq<(string, string)> := [];
    for i := 0 to |parts|
      invariant ps == PairsOf(parts[..i])
      invariant fs == Describe(fieldName, ps)
    {
      PairsOfPrefix(parts, i);
      var kv := SplitAtFirst(TrimSpace(parts[i]), '=');
      if kv.None? {
        continue;
      }
      var (k, v) := kv.value;
      ghost var before := fs;
      match KeyOf(k) {
        case NameKey => fs := fs.(Name := v);
        case LabelKey => fs := fs.(Label := v);
        case TypeKey => fs := fs.(Type := v);
        case RequiredKey => fs := fs.(Required := v == "true");
        case OptionsKey =>
          if v != "" {
            fs := fs.(Options := Split(v, '|'));
          }
        case PlaceholderKey => fs := fs.(Placeholder := v);
        case DefaultKey => fs := fs.(DefaultValue := v);
        case OtherKey =>
      }
      assert fs == Update(before, KeyOf(k), v);
      DescribeSnoc(fieldName, ps, (k, v));
      ps := ps + [(k, v)];
    }
    assert parts[..|parts|] == parts;
  }

  lemma EmptyTagHasNoPairs()
    ensures TagPairs("") == []
  {
    assert Split("", ',') == [""];
    assert PairsOf([""]) == PairsOf([]) + [] by {
      assert KeyValue("") == None;
      assert [""][..0] == [];
    }
  }

  // ---------------------------------------------------------------------------
  // What the tag grammar promises

  /** An empty tag describes the field by its declared name and the defaults alone. */
  lemma EmptyTagDefaults(fieldName: string)
    ensures SpecOf(fieldName, "") == FieldSpec(fieldName, "", "text", false, [], "", "")
  {
    EmptyTagHasNoPairs();
  }

  /**
   * A part yields a pair exactly when its trimmed text holds an `=`; the key is
   * the text before the first `=`, and the value all the rest, further `=` included.
   */
  lemma KeyValueCutsAtFirstEquals(part: string, k: string, v: string)
    ensures KeyValue(part).None? <==> '=' !in TrimSpace(part)
    ensures KeyValue(part) == Some((k, v)) <==> TrimSpace(part) == k + "=" + v && '=' !in k
  {
    if TrimSpace(part) == k + "=" + v && '=' !in k {
      SplitAtFirstUnique(k, '=', v);
    }
  }

  /** Pair `i` is the last one in `kvs` that sets `key`. */
  predicate LastTakerAt(kvs: seq<(string, string)>, key: Key, i: int)
  {
    && 0 <= i < |kvs|
    && Takes(kvs[i], key)
    && forall j :: i < j < |kvs| ==> !Takes(kvs[j], key)
  }

  /** `LastValue` is the value of the last pair that sets the key, and None when no pair does. */
  lemma {:induction false} LastValueIsLastTaker(kvs: seq<(string, string)>, key: Key)
    ensures LastValue(kvs, key).None? <==> forall j :: 0 <= j < |kvs| ==> !Takes(kvs[j], key)
    ensures forall i :: LastTakerAt(kvs, key, i) ==> LastValue(kvs, key) == Some(kvs[i].1)
  {
    if kvs != [] {
      var n := |kvs| - 1;
      var init := kvs[..n];
      LastValueIsLastTaker(init, key);
      assert forall j :: 0 <= j < n ==> init[j] == kvs[j];
      if !Takes(kvs[n], key) {
        forall i | LastTakerAt(kvs, key, i) ensures LastValue(kvs, key) == Some(kvs[i].1) {
          assert LastTakerAt(init, key, i);
        }
      }
    }
  }

  /** Pairs further right override those further left. */
  lemma {:induction false} LastValueAppend(a: seq<(string, string)>, b: seq<(string, string)>, key: Key)
    ensures LastValue(a + b, key) == if LastValue(b, key).Some? then LastValue(b, key) else LastValue(a, key)
  {
    if b == [] {
      assert a + b == a;
    } else {
      var n := |b| - 1;
      assert (a + b)[..|a + b| - 1] == a + b[..n];
      LastValueAppend(a, b[..n], key);
    }
  }

  lemma {:induction false} PairsOfAppend(p: seq<string>, q: seq<string>)
    ensures PairsOf(p + q) == PairsOf(p) + PairsOf(q)
  {
    if q == [] {
      assert p + q == p;
    } else {
      var n := |q| - 1;
      assert (p + q)[..|p + q| - 1] == p + q[..n];
      PairsOfAppend(p, q[..n]);
    }
  }

  /** Joining two tags with a comma joins their pair lists. */
  lemma TagPairsAppend(t1: string, t2: string)
    ensures TagPairs(t1 + "," + t2) == TagPairs(t1) + TagPairs(t2)
  {
    SplitAppend(t1, t2, ',');
    PairsOfAppend(Split(t1, ','), Split(t2, ','));
  }

  /** Keys are read left to right: what a later tag sets wins over an earlier one. */
  lemma LaterTagOverrides(t1: string, t2: string, key: Key)
    ensures TagValue(t1 + "," + t2, key) == if TagValue(t2, key).Some? then TagValue(t2, key) else TagValue(t1, key)
  {
    TagPairsAppend(t1, t2);
    LastValueAppend(TagPairs(t1), TagPairs(t2), key);
  }

  lemma LastValueSkip(a: seq<(string, string)>, kv: (string, string), b: seq<(string, string)>, key: Key)
    requires KeyOf(kv.0) != key
    ensures LastValue(a + [kv] + b, key) == LastValue(a + b, key)
  {
    LastValueAppend(a + [kv], b, key);
    LastValueAppend(a, b, key);
    LastValueSnoc(a, kv, key);
  }

  /** A pair whose key is not one of the seven recognised ones changes nothing. */
  lemma UnrecognisedKeyIgnored(fieldName: string, a: seq<(string, string)>, kv: (string, string), b: seq<(string, string)>)
    requires KeyOf(kv.0) == OtherKey
    ensures Describe(fieldName, a + [kv] + b) == Describe(fieldName, a + b)
  {
    DescribeByLastValue(fieldName, a + [kv] + b);
    DescribeByLastValue(fieldName, a + b);
    LastValueSkip(a, kv, b, NameKey);
    LastValueSkip(a, kv, b, LabelKey);
    LastValueSkip(a, kv, b, TypeKey);
    LastValueSkip(a, kv, b, RequiredKey);
    LastValueSkip(a, kv, b, OptionsKey);
    LastValueSkip(a, kv, b, PlaceholderKey);
    LastValueSkip(a, kv, b, DefaultKey);
  }

  /** Trimming never brings in an `=`, so a part without one yields no pair. */
  lemma KeyValueWithoutEquals(p: string)
    requires '=' !in p
    ensures KeyValue(p) == None
  {
    TrimFuncIsTrim(p, IsSpace);
  }

  /** A tag of a single part without `=` holds no pairs. */
  lemma TagPairsWithoutEquals(p: string)
    requires '=' !in p && ',' !in p
    ensures TagPairs(p) == []
  {
    KeyValueWithoutEquals(p);
    SplitWithoutSep(p, ',');
    PairsOfSnoc([], p);
    assert [] + [p] == [p];
  }

  /** A part without `=` (and without `,`) contributes no pair wherever it stands. */
  lemma PartWithoutEqualsIgnored(t1: string, p: string, t2: string)
    requires '=' !in p && ',' !in p
    ensures TagPairs(t1 + "," + p + "," + t2) == TagPairs(t1 + "," + t2)
  {
    calc {
      TagPairs(t1 + "," + p + "," + t2);
      { assert t1 + "," + p + "," + t2 == t1 + "," + (p + "," + t2); }
      TagPairs(t1 + "," + (p + "," + t2));
      { TagPairsAppend(t1, p + "," + t2); }
      TagPairs(t1) + TagPairs(p + "," + t2);
      { TagPairsAppend(p, t2); TagPairsWithoutEquals(p); assert [] + TagPairs(t2) == TagPairs(t2); }
      TagPairs(t1) + TagPairs(t2);
      { TagPairsAppend(t1, t2); }
      TagPairs(t1 + "," + t2);
    }
  }

  /** `required` is set exactly by the literal value "true"; "1", "yes" and "True" clear it. */
  lemma RequiredIsLiteralTrue(fieldName: string, kvs: seq<(string, string)>, v: string)
    ensures Describe(fieldName, kvs + [("required", v)]).Required <==> v == "true"
  {
    DescribeSnoc(fieldName, kvs, ("required", v));
  }

  /** A non-empty `options` value is split at `|`; an empty one keeps what was there. */
  lemma OptionsAssignment(fieldName: string, kvs: seq<(string, string)>, v: string)
    ensures Describe(fieldName, kvs + [("options", v)]).Options ==
      if v == "" then Describe(fieldName, kvs).Options else Split(v, '|')
  {
    DescribeSnoc(fieldName, kvs, ("options", v));
  }

  // ---------------------------------------------------------------------------
  // Writing a tag, the partner that parsing inverts

  /** A pair that comes back unchanged from being written as `k=v` in a tag. */
  predicate Writable(kv: (string, string))
  {
    && kv.0 != "" && !IsSpace(kv.0[0]) && '=' !in kv.0 && ',' !in kv.0
    && ',' !in kv.1 && (kv.1 == "" || !IsSpace(kv.1[|kv.1| - 1]))
  }

  function EncodePair(kv: (string, string)): string
  {
    kv.0 + "=" + kv.1
  }

  function EncodeParts(kvs: seq<(string, string)>): (parts: seq<string>)
    ensures |parts| == |kvs|
  {
    if kvs == [] then [] else EncodeParts(kvs[..|kvs| - 1]) + [EncodePair(kvs[|kvs| - 1])]
  }

  /** The tag `k1=v1,k2=v2,...`. */
  function EncodeTag(kvs: seq<(string, string)>): string
  {
    Join(EncodeParts(kvs), ',')
  }

  lemma KeyValueOfEncodePair(kv: (string, string))
    requires Writable(kv)
    ensures KeyValue(EncodePair(kv)) == Some(kv)
    ensures ',' !in EncodePair(kv)
  {
    var s := EncodePair(kv);
    assert s[0] == kv.0[0];
    assert s[|s| - 1] == if kv.1 == "" then '=' else kv.1[|kv.1| - 1];
    TrimFuncOfTrimmed(s, IsSpace);
    SplitAtFirstUnique(kv.0, '=', kv.1);
  }

  lemma {:induction false} PairsOfEncodeParts(kvs: seq<(string, string)>)
    requires forall i :: 0 <= i < |kvs| ==> Writable(kvs[i])
    ensures PairsOf(EncodeParts(kvs)) == kvs
    ensures forall i :: 0 <= i < |kvs| ==> ',' !in EncodeParts(kvs)[i]
  {
    if kvs != [] {
      var n := |kvs| - 1;
      var parts := EncodeParts(kvs);
      PairsOfEncodeParts(kvs[..n]);
      KeyValueOfEncodePair(kvs[n]);
      assert parts[..n] == EncodeParts(kvs[..n]);
      assert kvs == kvs[..n] + [kvs[n]];
    }
  }

  /** Parsing a written tag gives back its pairs, so its description is theirs. */
  lemma ParseTagInvertsEncodeTag(fieldName: string, kvs: seq<(string, string)>)
    requires forall i :: 0 <= i < |kvs| ==> Writable(kvs[i])
    ensures TagPairs(EncodeTag(kvs)) == kvs
    ensures SpecOf(fieldName, EncodeTag(kvs)) == Describe(fieldName, kvs)
  {
    PairsOfEncodeParts(kvs);
    if kvs == [] {
      EmptyTagHasNoPairs();
    } else {
      SplitOfJoin(EncodeParts(kvs), ',');
    }
  }

  /** A tag that writes a single pair holds just that pair. */
  lemma SinglePairTag(kv: (string, string))
    requires Writable(kv)
    ensures TagPairs(EncodePair(kv)) == [kv]
  {
    assert EncodeParts([kv]) == [EncodePair(kv)] by {
      assert [kv][..0] == [];
    }
    ParseTagInvertsEncodeTag("", [kv]);
  }

  /**
   * Nothing keeps a field's form name non-empty: `name=` renames the field to
   * the empty string.
   */
  lemma EmptyNameOverride(fieldName: string)
    ensures SpecOf(fieldName, "name=").Name == ""
  {
    assert EncodePair(("name", "")) == "name=";
    SinglePairTag(("name", ""));
    DescribeSnoc(fieldName, [], ("name", ""));
    assert [] + [("name", "")] == [("name", "")];
  }
}
