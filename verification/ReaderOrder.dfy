/** The reader looks members up by key, so the order of members does not matter to it. */
module ReaderOrder {
  import opened Wrappers
  import opened JsonTree
  import opened Canonical
  import opened PayloadReader
  import P = Payload

  function Sorted(ms: seq<Member>): seq<Member> {
    BTree(SortValues(ms))
  }

  /** A sorted object answers with the sorted values. */
  lemma GetSorted(ms: seq<Member>, k: string)
    ensures Get(Sorted(ms), k) == match Get(ms, k) case Some(v) => Some(Sort(v)) case None => None
  {
    BTreeAscending(SortValues(ms));
    SortValuesMap(ms);
  }

  lemma StringSorted(ms: seq<Member>, k: string)
    ensures StringAt(Sorted(ms), k) == StringAt(ms, k)
    ensures StringOrEmptyAt(Sorted(ms), k) == StringOrEmptyAt(ms, k)
    ensures OptionAt(Sorted(ms), k) == OptionAt(ms, k)
  {
    GetSorted(ms, k);
  }

  lemma TextSorted(ms: seq<Member>, k: string)
    ensures OptionalTextAt(Sorted(ms), k) == OptionalTextAt(ms, k)
  {
    GetSorted(ms, k);
    if Get(ms, k).Some? && Get(ms, k).value.Object? {
      StringSorted(Get(ms, k).value.members, "Text");
    }
  }

  lemma AddressSorted(ms: seq<Member>)
    ensures ReadAddress(Sorted(ms)) == ReadAddress(ms)
  {
    StringSorted(ms, "Address");
    StringSorted(ms, "Name");
    StringSorted(ms, "Memo");
    StringSorted(ms, "AssetLabel");
    StringSorted(ms, "BadgeText");
  }

  lemma AmountSorted(ms: seq<Member>)
    ensures ReadAmount(Sorted(ms)) == ReadAmount(ms)
  {
    StringSorted(ms, "Amount");
    StringSorted(ms, "Abbreviation");
  }

  lemma {:induction false} StringsSorted(js: seq<Json>)
    ensures ReadStrings(SortItems(js)) == ReadStrings(js)
  {
    if js != [] {
      assert SortItems(js)[1..] == SortItems(js[1..]);
      StringsSorted(js[1..]);
    }
  }

  lemma DynamicSorted(j: Json)
    ensures ReadDynamic(Sort(j)) == ReadDynamic(j)
  {
    if j.Object? {
      StringSorted(j.members, "ID");
      StringSorted(j.members, "Type");
      GetSorted(j.members, "Params");
      var params := Get(j.members, "Params");
      if params.Some? && params.value.Array? {
        StringsSorted(params.value.items);
      }
    }
  }

  lemma StringBodySorted(common: P.Common, key: string, j: Json)
    requires j.Object? && key !in {"AddressV2", "Amount", "AmountV2"}
    ensures ReadPlainBody(common, key, Object(Sorted(j.members))) == ReadPlainBody(common, key, j)
  {
    var ms := j.members;
    if key == "Text" || key == "TextV2" {
      StringSorted(ms, "Text");
    } else if key == "Address" {
      StringSorted(ms, "Address");
      StringSorted(ms, "Name");
    } else if key == "Number" {
      StringSorted(ms, "Number");
    } else if key == "Divider" {
      StringSorted(ms, "Style");
    } else if key == "Unknown" {
      StringSorted(ms, "Data");
      StringSorted(ms, "Explanation");
    }
  }

  lemma StructBodySorted(common: P.Common, key: string, j: Json)
    requires j.Object? && key in {"AddressV2", "Amount", "AmountV2"}
    ensures ReadPlainBody(common, key, Object(Sorted(j.members))) == ReadPlainBody(common, key, j)
  {
    if key == "AddressV2" {
      AddressSorted(j.members);
    } else {
      AmountSorted(j.members);
    }
  }

  lemma PlainBodySorted(common: P.Common, key: string, j: Json)
    ensures ReadPlainBody(common, key, Sort(j)) == ReadPlainBody(common, key, j)
  {
    if j.Object? {
      if key in {"AddressV2", "Amount", "AmountV2"} {
        StructBodySorted(common, key, j);
      } else {
        StringBodySorted(common, key, j);
      }
    }
  }

  lemma FieldSorted(j: Json)
    ensures ReadField(Sort(j)) == ReadField(j)
    decreases j, 4
  {
    if j.Object? {
      StringSorted(j.members, "FallbackText");
      StringSorted(j.members, "Label");
      StringSorted(j.members, "Type");
      var typeName := StringAt(j.members, "Type");
      if typeName.Some? && KeyOfType(typeName.value).Some? {
        var key := KeyOfType(typeName.value).value;
        GetSorted(j.members, key);
        var body := Get(j.members, key);
        forall common: P.Common | body.Some?
          ensures ReadBody(common, key, Sort(body.value)) == ReadBody(common, key, body.value)
        {
          BodySorted(common, key, body.value);
        }
      }
    }
  }

  lemma BodySorted(common: P.Common, key: string, j: Json)
    ensures ReadBody(common, key, Sort(j)) == ReadBody(common, key, j)
    decreases j, 3
  {
    PreviewSorted(j);
    ListSorted(j);
    PlainBodySorted(common, key, j);
  }

  lemma OptionalListSorted(j: Json, k: string)
    requires j.Object?
    ensures OptionalListAt(Sort(j), k) == OptionalListAt(j, k)
    decreases j, 1
  {
    GetSorted(j.members, k);
    if Get(j.members, k).Some? {
      ListSorted(Get(j.members, k).value);
    }
  }

  lemma PreviewSorted(j: Json)
    ensures ReadPreview(Sort(j)) == ReadPreview(j)
    decreases j, 2
  {
    if j.Object? {
      TextSorted(j.members, "Title");
      TextSorted(j.members, "Subtitle");
      OptionalListSorted(j, "Condensed");
      OptionalListSorted(j, "Expanded");
    }
  }

  lemma ListSorted(j: Json)
    ensures ReadList(Sort(j)) == ReadList(j)
    decreases j, 0
  {
    if j.Object? {
      GetSorted(j.members, "Fields");
      var fields := Get(j.members, "Fields");
      if fields.Some? && fields.value.Array? {
        ItemsSorted(fields.value.items);
      }
    }
  }

  lemma ItemsSorted(js: seq<Json>)
    ensures ReadAnnotatedItems(SortItems(js)) == ReadAnnotatedItems(js)
    decreases js, 0
  {
    if js != [] {
      assert SortItems(js)[1..] == SortItems(js[1..]);
      AnnotatedSorted(js[0]);
      ItemsSorted(js[1..]);
    }
  }

  lemma AnnotatedSorted(j: Json)
    ensures ReadAnnotated(Sort(j)) == ReadAnnotated(j)
    decreases j, 5
  {
    FieldSorted(j);
    if j.Object? {
      TextSorted(j.members, "StaticAnnotation");
      GetSorted(j.members, "DynamicAnnotation");
      if Get(j.members, "DynamicAnnotation").Some? {
        DynamicSorted(Get(j.members, "DynamicAnnotation").value);
      }
    }
  }

  lemma {:induction false} FieldsSorted(js: seq<Json>)
    ensures ReadFields(SortItems(js)) == ReadFields(js)
  {
    if js != [] {
      assert SortItems(js)[1..] == SortItems(js[1..]);
      FieldSorted(js[0]);
      FieldsSorted(js[1..]);
    }
  }

  /** A tree of any shape is read like its sorted form. */
  lemma ReadOfSorted(j: Json)
    ensures ReadPayload(Sort(j)) == ReadPayload(j)
  {
    if j.Object? {
      GetSorted(j.members, "Fields");
      StringSorted(j.members, "PayloadType");
      StringSorted(j.members, "Subtitle");
      StringSorted(j.members, "Title");
      StringSorted(j.members, "Version");
      var fields := Get(j.members, "Fields");
      if fields.Some? && fields.value.Array? {
        FieldsSorted(fields.value.items);
      }
    }
  }

  /** Trees that differ in key order only are read as the same payload, or neither is. */
  lemma ReaderIgnoresKeyOrder(a: Json, b: Json)
    requires Equivalent(a, b)
    ensures ReadPayload(a) == ReadPayload(b)
  {
    EquivalentSortsAlike(a, b);
    ReadOfSorted(a);
    ReadOfSorted(b);
  }
}
