/** The product-description generator (`scripts/generate_product_description.py`)
    in its manual mode: the typed answers become a product record whose
    description is a fixed-order join of clauses, and `main` checks the
    arguments, the image and the mode before writing the record. The console
    answers and the file system are inputs; the vision mode only prints
    advice and is not modelled beyond its exit. */
module GenerateDescription {
  import opened Strings

  const DefaultName: string := "未命名产品"
  const ManualMethod: string := "manual"
  const ManualFlag: string := "--manual"
  const OutputFile: string := "product_description.json"

  /** The eight lines typed at the prompts, as typed. */
  datatype ManualAnswers = ManualAnswers(name: string, category: string, colors: string, materials: string,
                                         occasion: string, targetAudience: string, style: string, features: string)

  /** The record `generate_product_description_manual` returns. */
  datatype ProductInfo = ProductInfo(name: string, category: string, colors: seq<string>, materials: seq<string>,
                                     occasion: string, targetAudience: string, style: string,
                                     features: seq<string>, description: string, imagePath: string,
                                     generationMethod: string)

  /** The product name: the stripped answer, or the default when blank. */
  function ProductName(typed: string): (name: string)
    ensures name != []
    ensures AllSpace(typed) ==> name == DefaultName
    ensures !AllSpace(typed) ==> name == Strip(typed)
  {
    var s := Strip(typed);
    if s != [] then s else DefaultName
  }

  /** `[x.strip() for x in s.split(",")] if s else []` for a stripped answer. */
  function ListField(s: string): (r: seq<string>)
    ensures s == [] <==> r == []
    ensures s != [] ==> |r| == |Split(s, ',')|
    ensures forall k :: 0 <= k < |r| ==> ',' !in r[k] && r[k] == Strip(Split(s, ',')[k])
  {
    if s == [] then []
    else
      var pieces := Split(s, ',');
      var r := StripEach(pieces);
      assert forall k :: 0 <= k < |r| ==> ',' !in r[k] by {
        forall k | 0 <= k < |r| ensures ',' !in r[k] {
          StripInside(pieces[k]);
          assert pieces[k] in pieces;
        }
      }
      r
  }

  /** The description's clauses: the name first, then each answered field
      in the fixed order. */
  function ManualClauses(name: string, category: string, colors: string, materials: string, style: string,
                         occasion: string, audience: string, features: string): seq<string>
  {
    ["This is a " + name] + Clause("in the ", category, " category") + Clause("featuring ", colors, " colors")
    + Clause("made with ", materials, "") + Clause("The style is ", style, "")
    + Clause("suitable for ", occasion, "") + Clause("designed for ", audience, "")
    + Clause("Key features include: ", features, "")
  }

  /** The record for the given answers. */
  function ManualInfo(imagePath: string, a: ManualAnswers): ProductInfo {
    var name := ProductName(a.name);
    var category, colors, materials := Strip(a.category), Strip(a.colors), Strip(a.materials);
    var occasion, audience, style, features := Strip(a.occasion), Strip(a.targetAudience), Strip(a.style), Strip(a.features);
    var parts := ManualClauses(name, category, colors, materials, style, occasion, audience, features);
    ProductInfo(name, category, ListField(colors), ListField(materials), occasion, audience, style,
                ListField(features), Join(parts, ". ") + ".", imagePath, ManualMethod)
  }

  /** `generate_product_description_manual(image_path)` with the answers
      typed at its prompts. */
  method GenerateProductDescriptionManual(imagePath: string, a: ManualAnswers) returns (info: ProductInfo)
    ensures info == ManualInfo(imagePath, a)
  {
    var name := Strip(a.name);
    if name == [] {
      name := DefaultName;
    }
    var category := Strip(a.category);
    var colors := Strip(a.colors);
    var materials := Strip(a.materials);
    var occasion := Strip(a.occasion);
    var audience := Strip(a.targetAudience);
    var style := Strip(a.style);
    var features := Strip(a.features);
    var parts := ["This is a " + name];
    parts := AddClause(parts, "in the ", category, " category");
    parts := AddClause(parts, "featuring ", colors, " colors");
    parts := AddClause(parts, "made with ", materials, "");
    parts := AddClause(parts, "The style is ", style, "");
    parts := AddClause(parts, "suitable for ", occasion, "");
    parts := AddClause(parts, "designed for ", audience, "");
    parts := AddClause(parts, "Key features include: ", features, "");
    var description := Join(parts, ". ") + ".";
    var colorList: seq<string> := [];
    if colors != [] {
      colorList := StripEach(Split(colors, ','));
    }
    var materialList: seq<string> := [];
    if materials != [] {
      materialList := StripEach(Split(materials, ','));
    }
    var featureList: seq<string> := [];
    if features != [] {
      featureList := StripEach(Split(features, ','));
    }
    info := ProductInfo(name, category, colorList, materialList, occasion, audience, style,
                        featureList, description, imagePath, ManualMethod);
  }

  /** The clauses are the name's clause, which comes first, and one clause
      per answered field, each with its own fixed text. */
  lemma ManualParts(name: string, category: string, colors: string, materials: string, style: string,
                    occasion: string, audience: string, features: string)
    ensures var parts := ManualClauses(name, category, colors, materials, style, occasion, audience, features);
      && parts[0] == "This is a " + name
      && (forall x :: x in parts <==>
            || x == "This is a " + name
            || (category != [] && x == "in the " + category + " category")
            || (colors != [] && x == "featuring " + colors + " colors")
            || (materials != [] && x == "made with " + materials)
            || (style != [] && x == "The style is " + style)
            || (occasion != [] && x == "suitable for " + occasion)
            || (audience != [] && x == "designed for " + audience)
            || (features != [] && x == "Key features include: " + features))
  {
    NoSuffixText("made with ", materials);
    NoSuffixText("The style is ", style);
    NoSuffixText("suitable for ", occasion);
    NoSuffixText("designed for ", audience);
    NoSuffixText("Key features include: ", features);
  }

  /** With every field answered the clauses are all eight, in the fixed
      order. */
  lemma AllAnswered(name: string, category: string, colors: string, materials: string, style: string,
                    occasion: string, audience: string, features: string)
    requires category != [] && colors != [] && materials != [] && style != [] && occasion != []
    requires audience != [] && features != []
    ensures ManualClauses(name, category, colors, materials, style, occasion, audience, features)
      == ["This is a " + name, "in the " + category + " category", "featuring " + colors + " colors",
          "made with " + materials, "The style is " + style, "suitable for " + occasion,
          "designed for " + audience, "Key features include: " + features]
  {
    NoSuffixText("made with ", materials);
    NoSuffixText("The style is ", style);
    NoSuffixText("suitable for ", occasion);
    NoSuffixText("designed for ", audience);
    NoSuffixText("Key features include: ", features);
  }

  /** With no field answered only the name's clause is left. */
  lemma NoneAnswered(name: string)
    ensures ManualClauses(name, [], [], [], [], [], [], []) == ["This is a " + name]
  {
  }

  /** A join contains every one of its parts. */
  lemma JoinHasParts(parts: seq<string>, sep: string)
    ensures forall x :: x in parts ==> Contains(Join(parts, sep), x)
  {
    forall x | x in parts ensures Contains(Join(parts, sep), x) {
      var k :| 0 <= k < |parts| && parts[k] == x;
      JoinHasPart(parts, sep, k);
    }
  }

  /** A join starts with its first part. */
  lemma JoinStarts(parts: seq<string>, sep: string)
    requires parts != []
    ensures StartsWith(Join(parts, sep), parts[0])
  {
    if |parts| > 1 {
      assert Join(parts, sep) == parts[0] + (sep + Join(parts[1..], sep));
    }
  }

  /** The record echoes the image path and the mode, names the product
      (the default for a blank name), and its description opens with
      "This is a " and the name, contains every clause, and always ends with
      a dot. */
  lemma ManualInfoShape(imagePath: string, a: ManualAnswers)
    ensures var info := ManualInfo(imagePath, a);
      var parts := ManualClauses(info.name, info.category, Strip(a.colors), Strip(a.materials), info.style,
                                 info.occasion, info.targetAudience, Strip(a.features));
      && info.imagePath == imagePath && info.generationMethod == ManualMethod
      && info.name == ProductName(a.name)
      && StartsWith(info.description, "This is a " + info.name)
      && info.description[|info.description| - 1] == '.'
      && (forall x :: x in parts ==> Contains(info.description, x))
  {
    var info := ManualInfo(imagePath, a);
    var parts := ManualClauses(info.name, info.category, Strip(a.colors), Strip(a.materials), info.style,
                               info.occasion, info.targetAudience, Strip(a.features));
    var joined := Join(parts, ". ");
    assert info.description == joined + ".";
    assert parts[0] == "This is a " + info.name;
    JoinStarts(parts, ". ");
    JoinHasParts(parts, ". ");
    forall x | x in parts ensures Contains(info.description, x) {
      ContainsPrefix(joined, ".", x);
    }
  }

  /** What a string contains, it still contains with more text after it. */
  lemma {:induction false} ContainsPrefix(s: string, t: string, sub: string)
    requires Contains(s, sub)
    ensures Contains(s + t, sub)
    decreases |s|
  {
    if sub <= s {
      assert sub <= s + t;
    } else {
      assert (s + t)[1..] == s[1..] + t;
      ContainsPrefix(s[1..], t, sub);
    }
  }

  /** A comma list written back with commas is read as the same items: the
      items must be non-empty, free of commas and of surrounding spaces. */
  lemma ListFieldJoin(items: seq<string>)
    requires items != []
    requires forall k :: 0 <= k < |items| ==> ',' !in items[k] && items[k] != [] && Strip(items[k]) == items[k]
    ensures ListField(Join(items, [','])) == items
  {
    SplitJoin(items, ',');
    JoinNotEmpty(items, [',']);
    ListFieldOfSplit(Join(items, [',']), items);
  }

  /** A join whose first part is not empty is not empty. */
  lemma JoinNotEmpty(parts: seq<string>, sep: string)
    requires parts != [] && parts[0] != []
    ensures Join(parts, sep) != []
  {
    JoinStarts(parts, sep);
  }

  /** A list field whose pieces are already stripped is its pieces. */
  lemma ListFieldOfSplit(s: string, items: seq<string>)
    requires s != [] && Split(s, ',') == items
    requires forall k :: 0 <= k < |items| ==> Strip(items[k]) == items[k]
    ensures ListField(s) == items
  {
    StripEachFixed(items);
  }

  /** Stripping pieces that are their own strip changes nothing. */
  lemma StripEachFixed(items: seq<string>)
    requires forall k :: 0 <= k < |items| ==> Strip(items[k]) == items[k]
    ensures StripEach(items) == items
  {
  }

  /** A stripped answer without commas is a one-item list. */
  lemma ListFieldSingle(typed: string)
    requires ',' !in typed && !AllSpace(typed)
    ensures ListField(Strip(typed)) == [Strip(typed)]
  {
    var s := Strip(typed);
    StripInside(typed);
    StripIdempotent(typed);
  }

  /** How a run of `main` ends: an exit status, or the record written to
      `product_description.json`. */
  datatype GeneratorRun = Exited(code: int) | Written(file: string, info: ProductInfo)

  /** `main`: `argv` is `sys.argv` (the script name first), `fileExists`
      answers `os.path.exists`, `choice` is the line typed at the mode prompt
      and `a` the answers typed in manual mode. */
  method RunGenerator(argv: seq<string>, fileExists: string -> bool, choice: string, a: ManualAnswers)
      returns (run: GeneratorRun)
    ensures |argv| < 2 ==> run == Exited(1)
    ensures |argv| >= 2 && !fileExists(argv[1]) ==> run == Exited(1)
    ensures |argv| >= 2 && fileExists(argv[1]) && (ManualFlag in argv || Lower(Strip(choice)) == "y") ==>
      run == Written(OutputFile, ManualInfo(argv[1], a))
    ensures |argv| >= 2 && fileExists(argv[1]) && ManualFlag !in argv && Lower(Strip(choice)) != "y" ==>
      run == Exited(0)
  {
    if |argv| < 2 {
      return Exited(1);
    }
    var imagePath := argv[1];
    var manualMode := ManualFlag in argv;
    if !fileExists(imagePath) {
      return Exited(1);
    }
    var info: ProductInfo;
    if manualMode {
      info := GenerateProductDescriptionManual(imagePath, a);
    } else {
      var c := Lower(Strip(choice));
      if c == "y" {
        info := GenerateProductDescriptionManual(imagePath, a);
      } else {
        return Exited(0);
      }
    }
    run := Written(OutputFile, info);
  }
}
