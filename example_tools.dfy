/**
 * The two example tools of the repository as concrete scenarios: the text
 * tool's form struct run through the schema extractor and the binder, and the
 * start-up registration of both tools into a fresh catalog.
 */
module ExampleTools {
  import opened Wrappers
  import opened GoStrings
  import opened Fields
  import opened Form
  import opened Binding
  import opened Registry

  /** The tags of `TextForm`'s two fields, written out part by part. */
  const ContentTag: string := "type=textarea" + "," + "label=文本内容" + "," + "placeholder=在此输入文本" + "," + "required=true"
  const ActionTag: string := "type=select" + "," + "label=操作" + "," + "options=Upper|Lower|Title" + "," + "required=true"

  const ContentPairs: seq<(string, string)> :=
    [("type", "textarea"), ("label", "文本内容"), ("placeholder", "在此输入文本"), ("required", "true")]
  const ActionPairs: seq<(string, string)> :=
    [("type", "select"), ("label", "操作"), ("options", "Upper|Lower|Title"), ("required", "true")]

  /** The fields of `TextForm`: two exported strings. */
  const TextForm: seq<FieldDecl> :=
    [FieldDecl("Content", true, ContentTag, StringKind), FieldDecl("Action", true, ActionTag, StringKind)]

  const ContentSpec: FieldSpec := FieldSpec("Content", "文本内容", "textarea", true, [], "在此输入文本", "")
  const ActionSpec: FieldSpec := FieldSpec("Action", "操作", "select", true, ["Upper", "Lower", "Title"], "", "")

  /** A tag of four parts holds the pairs of its parts, left to right. */
  lemma TagPairs4(a: (string, string), b: (string, string), c: (string, string), d: (string, string))
    requires Writable(a) && Writable(b) && Writable(c) && Writable(d)
    ensures TagPairs(EncodePair(a) + "," + EncodePair(b) + "," + EncodePair(c) + "," + EncodePair(d)) == [a, b, c, d]
  {
    var ea, eb, ec, ed := EncodePair(a), EncodePair(b), EncodePair(c), EncodePair(d);
    SinglePairTag(a);
    SinglePairTag(b);
    SinglePairTag(c);
    SinglePairTag(d);
    TagPairsAppend(ea, eb);
    assert TagPairs(ea + "," + eb) == [a, b];
    TagPairsAppend(ea + "," + eb, ec);
    assert TagPairs(ea + "," + eb + "," + ec) == [a, b, c];
    TagPairsAppend(ea + "," + eb + "," + ec, ed);
  }

  lemma ContentEncodings()
    ensures EncodePair(ContentPairs[0]) == "type=textarea" && EncodePair(ContentPairs[1]) == "label=文本内容"
    ensures EncodePair(ContentPairs[2]) == "placeholder=在此输入文本" && EncodePair(ContentPairs[3]) == "required=true"
  {
  }

  lemma ContentWritable(i: nat)
    requires i < |ContentPairs|
    ensures Writable(ContentPairs[i])
  {
  }

  lemma ContentTagPairs()
    ensures TagPairs(ContentTag) == ContentPairs
  {
    ContentEncodings();
    ContentWritable(0);
    ContentWritable(1);
    ContentWritable(2);
    ContentWritable(3);
    TagPairs4(ContentPairs[0], ContentPairs[1], ContentPairs[2], ContentPairs[3]);
  }

  lemma ActionEncodings()
    ensures EncodePair(ActionPairs[0]) == "type=select" && EncodePair(ActionPairs[1]) == "label=操作"
    ensures EncodePair(ActionPairs[2]) == "options=Upper|Lower|Title" && EncodePair(ActionPairs[3]) == "required=true"
  {
  }

  lemma ActionWritable(i: nat)
    requires i < |ActionPairs|
    ensures Writable(ActionPairs[i])
  {
  }

  lemma ActionTagPairs()
    ensures TagPairs(ActionTag) == ActionPairs
  {
    ActionEncodings();
    ActionWritable(0);
    ActionWritable(1);
    ActionWritable(2);
    ActionWritable(3);
    TagPairs4(ActionPairs[0], ActionPairs[1], ActionPairs[2], ActionPairs[3]);
  }

  lemma Join3(a: string, b: string, c: string, sep: char)
    ensures Join([a, b, c], sep) == a + [sep] + b + [sep] + c
  {
    assert [a, b, c][1..] == [b, c];
    assert [b, c][1..] == [c];
    assert Join([b, c], sep) == b + [sep] + c;
    assert a + [sep] + (b + [sep] + c) == a + [sep] + b + [sep] + c;
  }

  /** The action field's options come out in the order the tag lists them. */
  lemma ActionOptions()
    ensures Split("Upper|Lower|Title", '|') == ["Upper", "Lower", "Title"]
  {
    Join3("Upper", "Lower", "Title", '|');
    assert "Upper|Lower|Title" == "Upper" + "|" + "Lower" + "|" + "Title";
    var parts := ["Upper", "Lower", "Title"];
    assert forall k :: 0 <= k < |parts| ==> '|' !in parts[k];
    SplitOfJoin(parts, '|');
  }

  /** Four pairs describe a field as four updates of the defaults, left to right. */
  lemma Describe4(fieldName: string, a: (string, string), b: (string, string), c: (string, string), d: (string, string))
    ensures Describe(fieldName, [a, b, c, d]) ==
      Update(Update(Update(Update(Defaults(fieldName), KeyOf(a.0), a.1), KeyOf(b.0), b.1), KeyOf(c.0), c.1), KeyOf(d.0), d.1)
  {
    DescribeSnoc(fieldName, [], a);
    DescribeSnoc(fieldName, [a], b);
    DescribeSnoc(fieldName, [a, b], c);
    DescribeSnoc(fieldName, [a, b, c], d);
    assert [] + [a] == [a] && [a] + [b] == [a, b] && [a, b] + [c] == [a, b, c] && [a, b, c] + [d] == [a, b, c, d];
  }

  /** How the text tool's content field is described. */
  lemma ContentDescribed()
    ensures SpecOf("Content", ContentTag) == ContentSpec
  {
    ContentTagPairs();
    Describe4("Content", ContentPairs[0], ContentPairs[1], ContentPairs[2], ContentPairs[3]);
    assert ContentPairs == [ContentPairs[0], ContentPairs[1], ContentPairs[2], ContentPairs[3]];
    assert KeyOf("type") == TypeKey && KeyOf("label") == LabelKey;
    assert KeyOf("placeholder") == PlaceholderKey && KeyOf("required") == RequiredKey;
  }

  /** How the text tool's action field is described. */
  lemma ActionDescribed()
    ensures SpecOf("Action", ActionTag) == ActionSpec
  {
    ActionTagPairs();
    ActionOptions();
    Describe4("Action", ActionPairs[0], ActionPairs[1], ActionPairs[2], ActionPairs[3]);
    assert ActionPairs == [ActionPairs[0], ActionPairs[1], ActionPairs[2], ActionPairs[3]];
    assert KeyOf("type") == TypeKey && KeyOf("label") == LabelKey;
    assert KeyOf("options") == OptionsKey && KeyOf("required") == RequiredKey;
  }

  /** The schema of a struct of two exported fields. */
  lemma SchemaOfTwo(d0: FieldDecl, d1: FieldDecl)
    requires d0.exported && d1.exported
    ensures Schema([d0, d1]) == [SpecOf(d0.name, d0.tag), SpecOf(d1.name, d1.tag)]
  {
    ExportedAll([d0, d1]);
    SchemaIsSpecs([d0, d1]);
  }

  /** The schema the page is given for the text tool. */
  lemma TextFormSchema()
    ensures Schema(TextForm) == [ContentSpec, ActionSpec]
  {
    ContentDescribed();
    ActionDescribed();
    SchemaOfTwo(TextForm[0], TextForm[1]);
    assert TextForm == [TextForm[0], TextForm[1]];
  }

  /** A submission of the text tool's page: the content, and the action chosen twice. */
  const Submitted: map<string, seq<string>> := map["Content" := ["hello"], "Action" := ["Upper", "Lower"]]

  /** A submission that leaves out the action, which the tag marks as required. */
  const ActionMissing: map<string, seq<string>> := map["Content" := ["hi"]]

  /** The binder reads the text tool's fields under their own names. */
  lemma TextFormNames()
    ensures SpecOf("Content", ContentTag).Name == "Content"
    ensures SpecOf("Action", ActionTag).Name == "Action"
  {
    ContentDescribed();
    ActionDescribed();
  }

  lemma TextFormOutcomes()
    ensures Outcomes(TextForm, Submitted) == [Assign(StrV("hello")), Assign(StrV("Upper"))]
    ensures Outcomes(TextForm, ActionMissing) == [Assign(StrV("hi")), Keep]
  {
    TextFormNames();
    OutcomeAt(TextForm, Submitted, 0);
    OutcomeAt(TextForm, Submitted, 1);
    OutcomeAt(TextForm, ActionMissing, 0);
    OutcomeAt(TextForm, ActionMissing, 1);
  }

  /** Binding the submission into a fresh `TextForm` stores the first value of each list. */
  method SubmitTextForm() returns (err: Option<BindError>, content: Value, action: Value)
    ensures err == None && content == StrV("hello") && action == StrV("Upper")
  {
    TextFormOutcomes();
    var rec := new Record(TextForm);
    err := BindFormValues(Pointer(rec), Submitted);
    content, action := rec.slots[0], rec.slots[1];
  }

  /** Leaving out a required field is no error: it keeps its zero value. */
  method SubmitWithoutAction() returns (err: Option<BindError>, content: Value, action: Value)
    ensures err == None && content == StrV("hi") && action == StrV("")
  {
    TextFormOutcomes();
    var rec := new Record(TextForm);
    err := BindFormValues(Pointer(rec), ActionMissing);
    content, action := rec.slots[0], rec.slots[1];
  }

  const TextTool: Tool := Tool("text_tool", "文本处理工具", "对文本内容进行大小写转换等操作", "content")
  const CalcTool: Tool := Tool("calc_tool", "简易计算器", "执行基础四则运算并附加标签", "math")

  /** The registrations `Register` makes, in order. */
  const StartUp: seq<Tool> := [TextTool, CalcTool]

  /** `Register` of register.go: the text tool, then the calculator, into a fresh catalog. */
  method Register() returns (c: Catalog)
    ensures c.Valid() && c.history == StartUp
  {
    c := new Catalog();
    c.RegisterTool(TextTool);
    c.RegisterTool(CalcTool);
  }

  lemma StartUpIds()
    ensures LastWithId(StartUp, "text_tool") == Some(TextTool)
    ensures LastWithId(StartUp, "upper_tool") == None
  {
    assert StartUp[..1] == [TextTool];
  }

  lemma StartUpSpaces()
    ensures InSpace(StartUp, "math") == [CalcTool]
    ensures InSpace(StartUp, "finance") == []
    ensures SpacesOf(StartUp) == {"content", "math"}
  {
    assert StartUp[0].space == "content" && StartUp[1].space == "math";
    assert "content" != "math" && "content" != "finance" && "math" != "finance";
    RegisterGrowsOneList([], TextTool, "math");
    RegisterGrowsOneList([], TextTool, "finance");
    RegisterGrowsOneList([TextTool], CalcTool, "math");
    RegisterGrowsOneList([TextTool], CalcTool, "finance");
    assert [] + [TextTool] == [TextTool] && [TextTool] + [CalcTool] == StartUp;
  }

  /** What the catalog answers after start-up registration. */
  method StartUpLookups() returns (text: Option<Tool>, unknown: Option<Tool>, math: seq<Tool>,
                                   finance: seq<Tool>, spaces: seq<string>)
    ensures text == Some(TextTool) && unknown == None
    ensures math == [CalcTool] && finance == []
    ensures forall s :: s in spaces <==> s == "content" || s == "math"
  {
    StartUpIds();
    StartUpSpaces();
    var c := Register();
    text := c.GetTool("text_tool");
    unknown := c.GetTool("upper_tool");
    math := c.ListToolsBySpace("math");
    finance := c.ListToolsBySpace("finance");
    spaces := c.ListSpaces();
  }
}
