/**
 * Editing a stored block document: from the column to the form and back.
 *
 * `clean` stands for the HTML sanitiser, of which one law is used: cleaning
 * clean HTML changes nothing.
 */
module Documents {
  import opened Options
  import opened Json
  import opened BlockSchema

  // --- reading ----------------------------------------------------------------------

  function ListAt(f: Fields, key: string): seq<Json> {
    if key in f && f[key].Arr? then f[key].items else []
  }

  /** The text under a key, and the empty text wherever there is none. */
  function TextAt(v: Json, key: string): string {
    if v.Obj? && key in v.fields && v.fields[key].Str? then v.fields[key].text else ""
  }

  function TitleOf(f: Fields): Fields {
    if "title" in f && f["title"].Str? then map["title" := f["title"]] else map[]
  }

  /** A list with only the named keys of each element, all as strings. */
  function ShapeList(items: seq<Json>, keys: set<string>): (r: seq<Json>)
    ensures |r| == |items|
    ensures forall i :: 0 <= i < |r| ==> r[i] == Obj(map k | k in keys :: Str(TextAt(items[i], k)))
  {
    seq(|items|, i requires 0 <= i < |items| => Obj(map k | k in keys :: Str(TextAt(items[i], k))))
  }

  /** The fields the form has for a block of this kind; none when it has no form, or the block does not fill it. */
  function Shape(kind: string, f: Fields): Option<Fields> {
    match kind
    case "richText" =>
      if HasText(f, "html") then Some(map["type" := Str(kind), "html" := f["html"]]) else None
    case "heading" =>
      if "level" in f && f["level"] in {Num("2"), Num("3")} && HasText(f, "text")
      then Some(map["type" := Str(kind), "level" := f["level"], "text" := f["text"]])
      else None
    case "answerFirst" =>
      if HasText(f, "text") then Some(map["type" := Str(kind), "text" := f["text"]]) else None
    case "steps" =>
      Some(TitleOf(f) + map["type" := Str(kind), "steps" := Arr(ShapeList(ListAt(f, "steps"), {"text"}))])
    case "faq" =>
      Some(TitleOf(f) + map["type" := Str(kind), "items" := Arr(ShapeList(ListAt(f, "items"), {"q", "a"}))])
    case "specTable" =>
      Some(TitleOf(f) + map["type" := Str(kind), "rows" := Arr(ShapeList(ListAt(f, "rows"), {"label", "value"}))])
    case _ => None
  }

  predicate IsRichText(v: Json) {
    v.Obj? && HasText(v.fields, "type") && v.fields["type"].text == "richText" && HasText(v.fields, "html")
  }

  /** What two blocks are compared by: for rich text, everything but the words of its body. */
  function Comparable(v: Json): Json {
    if IsRichText(v) then Obj(v.fields["html" := Str("")]) else v
  }

  function Sanitised(v: Json, clean: string -> string): Json {
    if IsRichText(v) then Obj(v.fields["html" := Str(clean(v.fields["html"].text))]) else v
  }

  function KindOf(v: Json): string {
    if v.Obj? && HasText(v.fields, "type") then v.fields["type"].text else "unknown"
  }

  /** A stored object as the form holds it: shaped when nothing is lost, opaque otherwise. */
  function EditableBlock(entry: Json, clean: string -> string): Fields
    requires entry.Obj?
  {
    var kind := KindOf(entry);
    match Shape(kind, entry.fields)
    case Some(shaped) =>
      if SameJson(Comparable(Obj(shaped)), Comparable(entry))
      then Sanitised(Obj(shaped), clean).fields
      else map["type" := Str(kind), "raw" := entry]
    case None => map["type" := Str(kind), "raw" := entry]
  }

  /** The objects of a document, in order; anything else is not a block. */
  function Objects(items: seq<Json>): (r: seq<Json>)
    ensures forall i :: 0 <= i < |r| ==> r[i].Obj?
  {
    if items == [] then []
    else
      var front := Objects(items[..|items| - 1]);
      var last := items[|items| - 1];
      if last.Obj? then front + [last] else front
  }

  function EditableAll(objects: seq<Json>, clean: string -> string): seq<Fields>
    requires forall i :: 0 <= i < |objects| ==> objects[i].Obj?
  {
    seq(|objects|, i requires 0 <= i < |objects| => EditableBlock(objects[i], clean))
  }

  function EditableDocument(stored: Json, clean: string -> string): seq<Fields> {
    if stored.Arr? then EditableAll(Objects(stored.items), clean) else []
  }

  /** One stored item more: a block more when it is an object, nothing otherwise. */
  lemma OneItemMore(items: seq<Json>, n: nat, clean: string -> string)
    requires n < |items|
    ensures EditableAll(Objects(items[..n + 1]), clean) ==
      EditableAll(Objects(items[..n]), clean) + if items[n].Obj? then [EditableBlock(items[n], clean)] else []
  {
    assert items[..n + 1][..n] == items[..n];
  }

  method ToEditableDocument(stored: Json, clean: string -> string) returns (out: seq<Fields>)
    ensures out == EditableDocument(stored, clean)
  {
    out := [];
    if !stored.Arr? { return; }
    var items := stored.items;
    for n := 0 to |items|
      invariant out == EditableAll(Objects(items[..n]), clean)
    {
      var entry := items[n];
      OneItemMore(items, n, clean);
      if !entry.Obj? { continue; }
      var kind := KindOf(entry);
      var shaped := Shape(kind, entry.fields);
      if shaped.Some? && SameJson(Comparable(Obj(shaped.value)), Comparable(entry)) {
        out := out + [Sanitised(Obj(shaped.value), clean).fields];
      } else {
        out := out + [map["type" := Str(kind), "raw" := entry]];
      }
    }
    assert items[..|items|] == items;
  }

  // --- writing ----------------------------------------------------------------------

  datatype StoredDocument = Stored(blocks: seq<Json>) | Refused(index: nat, kind: string)

  function RawOf(block: Fields): Json {
    if "raw" in block then block["raw"] else Obj(block)
  }

  function StoredAll(blocks: seq<Fields>, clean: string -> string): seq<Json> {
    seq(|blocks|, i requires 0 <= i < |blocks| => Sanitised(RawOf(blocks[i]), clean))
  }

  /** The least index the storefront's schema rejects, or the length when there is none. */
  function FirstRejected(values: seq<Json>): (r: nat)
    ensures r <= |values| && AcceptsDocument(values[..r])
    ensures r < |values| ==> !AcceptsBlock(values[r])
  {
    if values == [] then 0
    else
      var n := |values| - 1;
      var r := FirstRejected(values[..n]);
      assert values[..n][..r] == values[..r];
      if r < n then r else if AcceptsBlock(values[n]) then n + 1 else n
  }

  /** Accepted whole, or refused at the least index the schema rejects. */
  function Checked(values: seq<Json>): StoredDocument {
    var r := FirstRejected(values);
    if r < |values| then Refused(r, KindOf(values[r])) else Stored(values)
  }

  function StoreDocument(blocks: seq<Fields>, clean: string -> string): StoredDocument {
    Checked(StoredAll(blocks, clean))
  }

  method ToStoredDocument(blocks: seq<Fields>, clean: string -> string) returns (r: StoredDocument)
    ensures r == StoreDocument(blocks, clean)
  {
    var stored := StoredAll(blocks, clean);
    for index := 0 to |stored|
      invariant AcceptsDocument(stored[..index])
    {
      if !AcceptsBlock(stored[index]) {
        LeastIsUnique(stored, index);
        return Refused(index, KindOf(stored[index]));
      }
    }
    assert stored[..|stored|] == stored;
    LeastIsUnique(stored, |stored|);
    return Stored(stored);
  }

  /** Whatever accepts everything before it and is itself rejected is the first rejected. */
  lemma LeastIsUnique(values: seq<Json>, n: nat)
    requires n <= |values| && AcceptsDocument(values[..n])
    requires n < |values| ==> !AcceptsBlock(values[n])
    ensures FirstRejected(values) == n
  {
    var r := FirstRejected(values);
    assert forall i :: 0 <= i < n ==> values[..n][i] == values[i];
    assert forall i :: 0 <= i < r ==> values[..r][i] == values[i];
  }

  /** A document is stored exactly when the whole of it parses; otherwise the least bad index is named. */
  lemma StoredIffParses(blocks: seq<Fields>, clean: string -> string)
    ensures var values := StoredAll(blocks, clean);
            match StoreDocument(blocks, clean)
            case Stored(out) => out == values && AcceptsDocument(values)
            case Refused(index, kind) =>
              && index < |values| && kind == KindOf(values[index])
              && !AcceptsDocument(values)
              && (forall i :: 0 <= i < |values| && !AcceptsBlock(values[i]) ==> index <= i)
  {
    var values := StoredAll(blocks, clean);
    var r := FirstRejected(values);
    assert forall i :: 0 <= i < r ==> values[..r][i] == values[i];
    assert r == |values| ==> values[..r] == values;
  }

  // --- open and save ------------------------------------------------------------------

  ghost predicate Idempotent(clean: string -> string) {
    forall s :: clean(clean(s)) == clean(s)
  }

  lemma SanitisedTwice(v: Json, clean: string -> string)
    requires Idempotent(clean)
    ensures Sanitised(Sanitised(v, clean), clean) == Sanitised(v, clean)
  {
    if IsRichText(v) {
      var f := v.fields["html" := Str(clean(v.fields["html"].text))];
      assert clean(clean(v.fields["html"].text)) == clean(v.fields["html"].text);
      assert f["html" := f["html"]] == f;
    }
  }

  /** Cleaning the HTML never changes whether the storefront accepts a block. */
  lemma SanitisingKeepsAcceptance(v: Json, clean: string -> string)
    ensures AcceptsBlock(Sanitised(v, clean)) <==> AcceptsBlock(v)
    ensures KindOf(Sanitised(v, clean)) == KindOf(v)
  {
  }

  /** A shape with a list: an optional title, the type and the list. */
  lemma ListShapeIsPlain(f: Fields, kind: string, name: string, items: seq<Json>, keys: set<string>)
    requires name in {"steps", "items", "rows"}
    ensures var shaped := TitleOf(f) + map["type" := Str(kind), name := Arr(ShapeList(items, keys))];
            && shaped.Keys <= {"title", "type", name}
            && shaped["type"] == Str(kind)
            && WellFormed(Obj(shaped))
  {
    var list := ShapeList(items, keys);
    forall i | 0 <= i < |list| ensures WellFormed(list[i]) {
      assert forall k :: k in list[i].fields ==> list[i].fields[k].Str?;
    }
    var shaped := TitleOf(f) + map["type" := Str(kind), name := Arr(list)];
    forall k | k in shaped ensures WellFormed(shaped[k]) {
      if k == name { assert shaped[k] == Arr(list); }
    }
  }

  /** The editor writes no `raw` key of its own and keeps the type. */
  lemma ShapeIsPlain(kind: string, f: Fields)
    ensures match Shape(kind, f)
            case Some(shaped) =>
              "raw" !in shaped && "type" in shaped && shaped["type"] == Str(kind) && WellFormed(Obj(shaped))
            case None => true
  {
    match kind
    case "steps" => ListShapeIsPlain(f, kind, "steps", ListAt(f, "steps"), {"text"});
    case "faq" => ListShapeIsPlain(f, kind, "items", ListAt(f, "items"), {"q", "a"});
    case "specTable" => ListShapeIsPlain(f, kind, "rows", ListAt(f, "rows"), {"label", "value"});
    case _ =>
  }

  /** Leaving the body out of a comparison loses nothing between blocks with the same body. */
  lemma SameApartFromBody(a: Json, b: Json)
    requires IsRichText(a) ==> IsRichText(b) && a.fields["html"] == b.fields["html"]
    requires IsRichText(b) ==> IsRichText(a)
    ensures Comparable(a) == Comparable(b) <==> a == b
  {
    if IsRichText(a) && Comparable(a) == Comparable(b) {
      assert a.fields == a.fields["html" := Str("")]["html" := a.fields["html"]];
      assert b.fields == b.fields["html" := Str("")]["html" := b.fields["html"]];
    }
  }

  lemma ShapeKeepsBody(kind: string, f: Fields)
    requires kind == KindOf(Obj(f)) && Shape(kind, f).Some?
    ensures var shaped := Obj(Shape(kind, f).value);
            && (IsRichText(shaped) <==> IsRichText(Obj(f)))
            && (IsRichText(shaped) ==> shaped.fields["html"] == f["html"])
  {
    ShapeIsPlain(kind, f);
  }

  /** The form's shape of a block equals the block exactly when nothing would be lost. */
  lemma SameShapeIsSame(entry: Json)
    requires entry.Obj? && WellFormed(entry)
    ensures match Shape(KindOf(entry), entry.fields)
            case Some(shaped) =>
              SameJson(Comparable(Obj(shaped)), Comparable(entry)) <==> Obj(shaped) == entry
            case None => true
  {
    var kind := KindOf(entry);
    if Shape(kind, entry.fields).Some? {
      var shaped := Obj(Shape(kind, entry.fields).value);
      ShapeIsPlain(kind, entry.fields);
      ShapeKeepsBody(kind, entry.fields);
      StableInjective(Comparable(shaped), Comparable(entry));
      SameApartFromBody(shaped, entry);
    }
  }

  /** One block through the form and back: the block itself, its HTML cleaned. */
  lemma BlockRoundTrip(entry: Json, clean: string -> string)
    requires entry.Obj? && WellFormed(entry) && Idempotent(clean)
    ensures Sanitised(RawOf(EditableBlock(entry, clean)), clean) == Sanitised(entry, clean)
  {
    SameShapeIsSame(entry);
    ShapeIsPlain(KindOf(entry), entry.fields);
    SanitisedTwice(entry, clean);
  }

  function SanitisedAll(values: seq<Json>, clean: string -> string): seq<Json> {
    seq(|values|, i requires 0 <= i < |values| => Sanitised(values[i], clean))
  }

  lemma {:induction false} ObjectsWellFormed(items: seq<Json>)
    requires forall i :: 0 <= i < |items| ==> WellFormed(items[i])
    ensures forall i :: 0 <= i < |Objects(items)| ==> WellFormed(Objects(items)[i])
  {
    if items != [] { ObjectsWellFormed(items[..|items| - 1]); }
  }

  lemma {:induction false} AllObjects(items: seq<Json>)
    requires forall i :: 0 <= i < |items| ==> items[i].Obj?
    ensures Objects(items) == items
  {
    if items != [] { AllObjects(items[..|items| - 1]); }
  }

  /**
   * Opening any stored array and saving it unedited checks exactly its objects,
   * each with its HTML cleaned and otherwise untouched.
   */
  lemma OpenAndSave(stored: Json, clean: string -> string)
    requires WellFormed(stored) && stored.Arr? && Idempotent(clean)
    ensures StoreDocument(EditableDocument(stored, clean), clean) ==
      Checked(SanitisedAll(Objects(stored.items), clean))
  {
    var objects := Objects(stored.items);
    ObjectsWellFormed(stored.items);
    forall i | 0 <= i < |objects|
      ensures Sanitised(RawOf(EditableAll(objects, clean)[i]), clean) == SanitisedAll(objects, clean)[i]
    {
      BlockRoundTrip(objects[i], clean);
    }
    assert StoredAll(EditableAll(objects, clean), clean) == SanitisedAll(objects, clean);
  }

  /** A document the storefront renders survives opening and saving whole, in order, anchors and images included. */
  lemma OpenAndSaveIsLossless(stored: Json, clean: string -> string)
    requires WellFormed(stored) && stored.Arr? && Idempotent(clean)
    requires AcceptsDocument(stored.items)
    ensures StoreDocument(EditableDocument(stored, clean), clean) == Stored(SanitisedAll(stored.items, clean))
  {
    OpenAndSave(stored, clean);
    AllObjects(stored.items);
    var values := SanitisedAll(stored.items, clean);
    forall i | 0 <= i < |values| ensures AcceptsBlock(values[i]) {
      SanitisingKeepsAcceptance(stored.items[i], clean);
    }
    LeastIsUnique(values, |values|);
  }

  /** Saving an unedited document is refused exactly when one of its objects is not renderable. */
  lemma OpenAndSaveAccepts(stored: Json, clean: string -> string)
    requires WellFormed(stored) && stored.Arr? && Idempotent(clean)
    ensures StoreDocument(EditableDocument(stored, clean), clean).Stored? <==>
      AcceptsDocument(Objects(stored.items))
  {
    OpenAndSave(stored, clean);
    var objects := Objects(stored.items);
    var values := SanitisedAll(objects, clean);
    forall i | 0 <= i < |values| ensures AcceptsBlock(values[i]) <==> AcceptsBlock(objects[i]) {
      SanitisingKeepsAcceptance(objects[i], clean);
    }
    var r := FirstRejected(values);
    if r == |values| {
      assert values[..r] == values;
    } else {
      assert !AcceptsBlock(objects[r]);
    }
  }

  // --- what an opened block holds ------------------------------------------------------------

  predicate IsTextAt(f: Fields, key: string) {
    key in f && f[key].Str?
  }

  /** A list of objects with exactly these keys, every value a text. */
  predicate IsTextTable(v: Json, keys: set<string>) {
    v.Arr? && forall i :: 0 <= i < |v.items| ==> IsTextRow(v.items[i], keys)
  }

  predicate IsTextRow(v: Json, keys: set<string>) {
    v.Obj? && v.fields.Keys == keys && forall k :: k in keys ==> v.fields[k].Str?
  }

  /** A type, a list under one name, and perhaps a title that is a text. */
  predicate IsListBlock(f: Fields, name: string, keys: set<string>) {
    && {"type", name} <= f.Keys <= {"type", name, "title"}
    && ("title" in f ==> f["title"].Str?)
    && IsTextTable(f[name], keys)
  }

  /** A block that one of the six forms holds whole, by its keys and their types. */
  predicate FillsForm(v: Json) {
    && v.Obj? && IsTextAt(v.fields, "type")
    && var f := v.fields;
       match f["type"].text
       case "richText" => f.Keys == {"type", "html"} && f["html"].Str?
       case "heading" => f.Keys == {"type", "level", "text"} && f["level"] in {Num("2"), Num("3")} && f["text"].Str?
       case "answerFirst" => f.Keys == {"type", "text"} && f["text"].Str?
       case "steps" => IsListBlock(f, "steps", {"text"})
       case "faq" => IsListBlock(f, "items", {"q", "a"})
       case "specTable" => IsListBlock(f, "rows", {"label", "value"})
       case _ => false
  }

  /** The same value, but for the body of rich text, which has gone through the sanitiser. */
  predicate IsCleaned(v: Json, w: Json, clean: string -> string) {
    if !v.Obj? then w == v
    else
      && w.Obj? && w.fields.Keys == v.fields.Keys
      && forall k :: k in v.fields ==>
           w.fields[k] ==
             if k == "html" && v.fields[k].Str? && "type" in v.fields && v.fields["type"] == Str("richText")
             then Str(clean(v.fields[k].text)) else v.fields[k]
  }

  lemma SanitisedIsCleaned(v: Json, clean: string -> string)
    ensures IsCleaned(v, Sanitised(v, clean), clean)
  {
  }

  /** A row is its own shape exactly when it has those keys only, all texts. */
  lemma RowShape(v: Json, keys: set<string>)
    ensures Obj(map k | k in keys :: Str(TextAt(v, k))) == v <==> IsTextRow(v, keys)
  {
    var shaped: map<string, Json> := map k | k in keys :: Str(TextAt(v, k));
    assert shaped.Keys == keys;
    if IsTextRow(v, keys) {
      assert forall k :: k in keys ==> shaped[k] == v.fields[k];
      assert shaped == v.fields;
    }
  }

  lemma TableShape(v: Json, f: Fields, name: string, keys: set<string>)
    requires name in f && f[name] == v
    ensures Arr(ShapeList(ListAt(f, name), keys)) == v <==> IsTextTable(v, keys)
  {
    if v.Arr? {
      var shaped := ShapeList(v.items, keys);
      forall i | 0 <= i < |v.items| ensures shaped[i] == v.items[i] <==> IsTextRow(v.items[i], keys) {
        RowShape(v.items[i], keys);
      }
      if IsTextTable(v, keys) { assert shaped == v.items; }
    }
  }

  lemma ListShape(f: Fields, kind: string, name: string, keys: set<string>)
    requires name in {"steps", "items", "rows"} && "type" in f && f["type"] == Str(kind)
    ensures TitleOf(f) + map["type" := Str(kind), name := Arr(ShapeList(ListAt(f, name), keys))] == f <==>
      IsListBlock(f, name, keys)
  {
    var shaped := TitleOf(f) + map["type" := Str(kind), name := Arr(ShapeList(ListAt(f, name), keys))];
    assert shaped.Keys == TitleOf(f).Keys + {"type", name};
    assert shaped[name] == Arr(ShapeList(ListAt(f, name), keys)) && shaped["type"] == Str(kind);
    if name in f { TableShape(f[name], f, name, keys); }
    if IsListBlock(f, name, keys) {
      assert forall k :: k in f ==> k in shaped && shaped[k] == f[k];
      assert shaped == f;
    }
    if shaped == f {
      assert f[name] == shaped[name];
      assert "title" in f ==> "title" in shaped && shaped["title"] == f["title"];
    }
  }

  lemma PlainShape(kind: string, f: Fields)
    requires "type" in f && f["type"] == Str(kind) && kind !in {"steps", "faq", "specTable"}
    ensures Shape(kind, f) == Some(f) <==> FillsForm(Obj(f))
  {
    if FillsForm(Obj(f)) {
      assert Shape(kind, f).value == f;
    }
    if Shape(kind, f) == Some(f) {
      match kind
      case "richText" => assert f.Keys == {"type", "html"};
      case "heading" => assert f.Keys == {"type", "level", "text"};
      case "answerFirst" => assert f.Keys == {"type", "text"};
      case _ =>
    }
  }

  /** The form's fields are the block's own exactly when the block has the keys and types of its form. */
  lemma ShapeIsForm(v: Json)
    requires v.Obj?
    ensures Shape(KindOf(v), v.fields) == Some(v.fields) <==> FillsForm(v)
  {
    var kind, f := KindOf(v), v.fields;
    if IsTextAt(f, "type") {
      match kind
      case "steps" => ListShape(f, kind, "steps", {"text"});
      case "faq" => ListShape(f, kind, "items", {"q", "a"});
      case "specTable" => ListShape(f, kind, "rows", {"label", "value"});
      case _ => PlainShape(kind, f);
    } else {
      ShapeIsPlain(kind, f);
    }
  }

  /**
   * What an opened block is to the stored object: one that fills its form is that form's
   * fields, itself with its HTML cleaned; any other is whole and untouched behind its type.
   */
  ghost predicate IsOpened(v: Json, block: Fields, clean: string -> string) {
    if FillsForm(v) then "raw" !in block && IsCleaned(v, Obj(block), clean)
    else
      && block.Keys == {"type", "raw"} && block["raw"] == v
      && block["type"] == (if v.Obj? && IsTextAt(v.fields, "type") then v.fields["type"] else Str("unknown"))
  }

  lemma BlockOpens(v: Json, clean: string -> string)
    requires v.Obj? && WellFormed(v)
    ensures IsOpened(v, EditableBlock(v, clean), clean)
  {
    SameShapeIsSame(v);
    ShapeIsForm(v);
    ShapeIsPlain(KindOf(v), v.fields);
    SanitisedIsCleaned(v, clean);
  }

  /** Opening a document opens its items one by one, in order; what is no object gives no block. */
  lemma DocumentOpens(items: seq<Json>, last: Json, clean: string -> string)
    requires WellFormed(last)
    ensures EditableDocument(Arr([]), clean) == []
    ensures var before, after := EditableDocument(Arr(items), clean), EditableDocument(Arr(items + [last]), clean);
            if last.Obj?
            then |after| == |before| + 1 && before == after[..|before|] && IsOpened(last, after[|before|], clean)
            else after == before
  {
    var all := items + [last];
    assert all[..|items|] == items && all[..|all|] == all;
    OneItemMore(all, |items|, clean);
    if last.Obj? { BlockOpens(last, clean); }
  }

  /** A stored document is the blocks sent, each taken out of its wrapping if it has one, with its HTML cleaned. */
  lemma StoredIsCleaned(blocks: seq<Fields>, clean: string -> string)
    ensures StoreDocument(blocks, clean).Stored? ==>
      var out := StoreDocument(blocks, clean).blocks;
      && |out| == |blocks|
      && forall i :: 0 <= i < |blocks| ==>
           IsCleaned(if "raw" in blocks[i] then blocks[i]["raw"] else Obj(blocks[i]), out[i], clean)
  {
    forall i | 0 <= i < |blocks|
      ensures IsCleaned(if "raw" in blocks[i] then blocks[i]["raw"] else Obj(blocks[i]), StoredAll(blocks, clean)[i], clean)
    {
      SanitisedIsCleaned(RawOf(blocks[i]), clean);
    }
  }

  /** Every text under these keys has something in it. */
  predicate AllFilled(rows: seq<Json>, keys: set<string>) {
    forall i :: 0 <= i < |rows| ==> rows[i].Obj? && forall k :: k in keys ==> IsTextAt(rows[i].fields, k) && rows[i].fields[k].text != ""
  }

  /** What the storefront asks of a block that fills its form, by the limits of that form. */
  predicate MeetsLimits(f: Fields)
    requires FillsForm(Obj(f))
  {
    match f["type"].text
    case "richText" => true
    case "heading" => f["text"].text != ""
    case "answerFirst" => 40 <= Utf16Length(f["text"].text) <= 600
    case "steps" => 1 <= |f["steps"].items| <= 12 && AllFilled(f["steps"].items, {"text"})
    case "faq" => 1 <= |f["items"].items| <= 20 && AllFilled(f["items"].items, {"q", "a"})
    case _ => f["rows"].items != []
  }

  lemma RowIsText(v: Json, keys: set<string>, i: nat)
    requires IsTextTable(v, keys) && i < |v.items|
    ensures IsTextRow(v.items[i], keys)
  {
  }

  lemma StepsAccepted(f: Fields)
    requires IsListBlock(f, "steps", {"text"})
    ensures AcceptsSteps(f) <==> 1 <= |f["steps"].items| <= 12 && AllFilled(f["steps"].items, {"text"})
  {
    var rows := f["steps"].items;
    forall i | 0 <= i < |rows|
      ensures rows[i] in rows && rows[i].Obj? && "assetId" !in rows[i].fields && IsTextAt(rows[i].fields, "text")
    {
      RowIsText(f["steps"], {"text"}, i);
      assert "assetId" !in {"text"};
    }
  }

  lemma FaqAccepted(f: Fields)
    requires IsListBlock(f, "items", {"q", "a"})
    ensures AcceptsFaq(f) <==> 1 <= |f["items"].items| <= 20 && AllFilled(f["items"].items, {"q", "a"})
  {
    var rows := f["items"].items;
    forall i | 0 <= i < |rows|
      ensures rows[i] in rows && rows[i].Obj? && IsTextAt(rows[i].fields, "q") && IsTextAt(rows[i].fields, "a")
    {
      RowIsText(f["items"], {"q", "a"}, i);
    }
  }

  lemma SpecTableAccepted(f: Fields)
    requires IsListBlock(f, "rows", {"label", "value"})
    ensures AcceptsSpecTable(f) <==> f["rows"].items != []
  {
    var rows := f["rows"].items;
    forall r | r in rows ensures r.Obj? && HasText(r.fields, "label") && HasText(r.fields, "value") {
      var i :| 0 <= i < |rows| && rows[i] == r;
      RowIsText(f["rows"], {"label", "value"}, i);
    }
  }

  /** A block in one of the six forms is stored exactly when it keeps that form's limits. */
  lemma FormIsAccepted(f: Fields)
    requires FillsForm(Obj(f))
    ensures AcceptsBlock(Obj(f)) <==> MeetsLimits(f)
  {
    match f["type"].text
    case "steps" => StepsAccepted(f);
    case "faq" => FaqAccepted(f);
    case "specTable" => SpecTableAccepted(f);
    case "heading" => assert "id" !in {"type", "level", "text"};
    case _ =>
  }
}
