/**
 Printing a record as `Name=value` items joined by '&' and parsing it back. Keys are searched
 anywhere in the text, so everything rests on where a key can occur: inside one item only, and
 there just before its '=' or in its value.
 */
module QueryRoundTrip {
  import opened CString
  import opened Options
  import opened Query

  datatype Item = Item(name: string, value: string)
  {
    /** Neither separator occurs in the name or the value. */
    predicate Plain() {
      '&' !in name && '=' !in name && '&' !in value && '=' !in value
    }

    /** It is one item of a list, and its name is what stands before its first '='. */
    predicate Joinable() {
      '&' !in name && '=' !in name && '&' !in value
    }

    function Print(): string {
      name + "=" + value
    }
  }

  function Print(items: seq<Item>): string
    requires items != []
  {
    if |items| == 1 then items[0].Print() else items[0].Print() + "&" + Print(items[1..])
  }

  predicate EndsWith(s: string, suffix: string) {
    |suffix| <= |s| && s[|s| - |suffix|..] == suffix
  }

  /** The key stands in the item: its name ends with `name`, or its value has `name=` in it. */
  predicate Holds(item: Item, name: string) {
    EndsWith(item.name, name) || FindFirst(item.value, name + "=").Some?
  }

  /** What is read out of an item that holds the key. */
  function Reads(item: Item, name: string): string {
    if EndsWith(item.name, name) then item.value else ItemValue(item.value, name + "=")
  }

  /** What is read out of the first item that holds the key. */
  function Lookup(items: seq<Item>, name: string): string {
    if items == [] then ""
    else if Holds(items[0], name) then Reads(items[0], name)
    else Lookup(items[1..], name)
  }

  // ----- where a key can occur -----

  /** A key cannot occur across a character it does not contain. */
  lemma OccursNotAcross(s: string, key: string, i: nat, m: nat)
    requires i <= m < i + |key| <= |s| && s[m] !in key
    ensures !OccursAt(s, key, i)
  {
    assert s[i..i + |key|][m - i] == s[m];
  }

  lemma OccursOnOneSide(a: string, b: string, key: string, i: nat)
    requires '&' !in key && key != ""
    ensures OccursAt(a + "&" + b, key, i) <==>
            OccursAt(a, key, i) || (i > |a| && OccursAt(b, key, i - |a| - 1))
  {
    var s := a + "&" + b;
    if i + |key| <= |a| {
      assert s[i..i + |key|] == a[i..i + |key|];
    } else if i + |key| <= |s| {
      if i > |a| {
        assert s[i..i + |key|] == b[i - |a| - 1..i - |a| - 1 + |key|];
      } else {
        OccursNotAcross(s, key, i, |a|);
      }
    }
  }

  lemma FindAcross(a: string, b: string, key: string)
    requires '&' !in key && key != ""
    ensures FindFirst(a + "&" + b, key) ==
            match FindFirst(a, key)
            case Some(i) => Some(i)
            case None => match FindFirst(b, key)
                         case Some(j) => Some(|a| + 1 + j)
                         case None => None
  {
    var s := a + "&" + b;
    forall i: nat
      ensures OccursAt(s, key, i) <==> OccursAt(a, key, i) || (i > |a| && OccursAt(b, key, i - |a| - 1))
    {
      OccursOnOneSide(a, b, key, i);
    }
    FindFirstIsFirst(a, key);
    FindFirstIsFirst(b, key);
    var r := match FindFirst(a, key)
             case Some(i) => Some(i)
             case None => match FindFirst(b, key)
                          case Some(j) => Some(|a| + 1 + j)
                          case None => None;
    FindFirstIs(s, key, r);
  }

  /** The value found in s = `a&b` is the one found in a ... */
  lemma ItemValueLeft(s: string, a: string, b: string, key: string)
    requires '&' !in key && key != "" && s == a + "&" + b
    requires FindFirst(a, key).Some?
    ensures ItemValue(s, key) == ItemValue(a, key)
  {
    FindAcross(a, b, key);
    var i := FindFirst(a, key).value + |key|;
    assert s[i..] == a[i..] + ("&" + b);
    BeforeStops(a[i..], '&');
    BeforeIs(s[i..], '&', Before(a[i..], '&'));
  }

  /** ... and only when a lacks the key the one found in b. */
  lemma ItemValueRight(s: string, a: string, b: string, key: string)
    requires '&' !in key && key != "" && s == a + "&" + b
    requires FindFirst(a, key).None?
    ensures ItemValue(s, key) == ItemValue(b, key)
  {
    FindAcross(a, b, key);
    if FindFirst(b, key).Some? {
      var j := FindFirst(b, key).value + |key|;
      assert s[|a| + 1 + j..] == b[j..];
    }
  }

  /** In one item a key occurs just before the first '=', when the item's name ends so, or inside the value. */
  lemma OccursInItem(item: Item, name: string, i: nat)
    requires '=' !in item.name && '=' !in name
    ensures OccursAt(item.Print(), name + "=", i) <==>
            || (i + |name| == |item.name| && EndsWith(item.name, name))
            || (i > |item.name| && OccursAt(item.value, name + "=", i - |item.name| - 1))
  {
    var s, key, n := item.Print(), name + "=", |item.name|;
    if i + |name| == n {
      assert s[i..i + |key|] == item.name[i..] + "=";
      assert (item.name[i..] + "=")[..|name|] == item.name[i..];
      assert key[..|name|] == name;
    } else if i + |key| <= |s| {
      if i > n {
        assert s[i..i + |key|] == item.value[i - n - 1..i - n - 1 + |key|];
      } else if i + |name| < n {
        assert s[i..i + |key|][|name|] == s[i + |name|] == item.name[i + |name|];
      } else {
        assert s[i..i + |key|][n - i] == s[n] == '=';
        assert key[n - i] == name[n - i];
      }
    }
  }

  /** When the value has no '=' either, only the first of the two can be. */
  lemma OccursInOne(item: Item, name: string, i: nat)
    requires item.Plain() && '=' !in name
    ensures OccursAt(item.Print(), name + "=", i) <==>
            i + |name| == |item.name| && EndsWith(item.name, name)
  {
    OccursInItem(item, name, i);
    if i > |item.name| {
      NoKeyInside(item.value, name, i - |item.name| - 1);
    }
  }

  lemma NoKeyInside(value: string, name: string, i: nat)
    requires '=' !in value
    ensures !OccursAt(value, name + "=", i)
  {
    var key := name + "=";
    if i + |key| <= |value| {
      assert value[i..i + |key|][|name|] == value[i + |name|];
    }
  }

  lemma PlainHolds(item: Item, name: string)
    requires item.Plain()
    ensures Holds(item, name) <==> EndsWith(item.name, name)
  {
    FindFirstIsFirst(item.value, name + "=");
    if FindFirst(item.value, name + "=").Some? {
      NoKeyInside(item.value, name, FindFirst(item.value, name + "=").value);
    }
  }

  /** Where the search ends in one item, the end of the name being looked at first. */
  lemma ItemSearch(item: Item, name: string)
    requires '=' !in item.name && '=' !in name
    ensures FindFirst(item.Print(), name + "=") ==
            if EndsWith(item.name, name) then Some(|item.name| - |name|)
            else match FindFirst(item.value, name + "=")
                 case Some(j) => Some(|item.name| + 1 + j)
                 case None => None
  {
    var s, key, n := item.Print(), name + "=", |item.name|;
    forall i: nat
      ensures OccursAt(s, key, i) <==>
              (i + |name| == n && EndsWith(item.name, name)) || (i > n && OccursAt(item.value, key, i - n - 1))
    {
      OccursInItem(item, name, i);
    }
    FindFirstIsFirst(item.value, key);
    var r := if EndsWith(item.name, name) then Some(n - |name|)
             else match FindFirst(item.value, key)
                  case Some(j) => Some(n + 1 + j)
                  case None => None;
    FindFirstIs(s, key, r);
  }

  lemma ItemValueInItem(item: Item, name: string)
    requires item.Joinable() && '=' !in name
    ensures FindFirst(item.Print(), name + "=").Some? <==> Holds(item, name)
    ensures Holds(item, name) ==> ItemValue(item.Print(), name + "=") == Reads(item, name)
  {
    var s, key, n := item.Print(), name + "=", |item.name|;
    ItemSearch(item, name);
    if EndsWith(item.name, name) {
      assert s[n + 1..] == item.value;
      BeforeIs(s[n + 1..], '&', item.value);
    } else if FindFirst(item.value, key).Some? {
      var j := FindFirst(item.value, key).value + |key|;
      assert s[n + 1 + j..] == item.value[j..];
    }
  }

  /** The parser's search, on any printed list of items, reads the first item that holds the key. */
  lemma {:induction false} SearchIsLookup(items: seq<Item>, name: string)
    requires items != [] && forall item | item in items :: item.Joinable()
    requires '=' !in name && '&' !in name
    ensures ItemValue(Print(items), name + "=") == Lookup(items, name)
  {
    ItemValueInItem(items[0], name);
    if |items| > 1 {
      SearchIsLookup(items[1..], name);
      if Holds(items[0], name) {
        ItemValueLeft(Print(items), items[0].Print(), Print(items[1..]), name + "=");
      } else {
        ItemValueRight(Print(items), items[0].Print(), Print(items[1..]), name + "=");
      }
    } else {
      assert Lookup(items[1..], name) == "";
    }
  }

  /** The place of the first item that holds the key, or the number of items. */
  function ItemRead(items: seq<Item>, name: string): (i: nat)
    ensures i <= |items|
    ensures i < |items| ==> Holds(items[i], name)
    ensures forall j | 0 <= j < i :: !Holds(items[j], name)
  {
    if items == [] || Holds(items[0], name) then 0 else 1 + ItemRead(items[1..], name)
  }

  lemma {:induction false} LookupRead(items: seq<Item>, name: string)
    ensures Lookup(items, name) ==
            if ItemRead(items, name) < |items| then Reads(items[ItemRead(items, name)], name) else ""
  {
    if items != [] && !Holds(items[0], name) {
      LookupRead(items[1..], name);
    }
  }

  /** Where an item starts in the printed list. */
  function Start(items: seq<Item>, i: nat): nat
    requires i < |items|
  {
    if i == 0 then 0 else |items[0].Print()| + 1 + Start(items[1..], i - 1)
  }

  lemma {:induction false} StartsLater(items: seq<Item>, r: nat, i: nat)
    requires r < i < |items|
    ensures Start(items, r) + |items[r].Print()| < Start(items, i)
  {
    if r > 0 {
      StartsLater(items[1..], r - 1, i - 1);
    }
  }

  /** The search stops inside the first item that holds the key. */
  lemma {:induction false} SearchLands(items: seq<Item>, name: string)
    requires items != [] && forall item | item in items :: item.Joinable()
    requires '=' !in name && '&' !in name
    ensures var r := ItemRead(items, name);
            var at := FindFirst(Print(items), name + "=");
            if r == |items| then at == None
            else
              && FindFirst(items[r].Print(), name + "=").Some?
              && at == Some(Start(items, r) + FindFirst(items[r].Print(), name + "=").value)
  {
    ItemValueInItem(items[0], name);
    if |items| > 1 {
      var a, b, key := items[0].Print(), Print(items[1..]), name + "=";
      SearchLands(items[1..], name);
      FindAcross(a, b, key);
      assert Print(items) == a + "&" + b;
      if !Holds(items[0], name) {
        var r := ItemRead(items[1..], name);
        assert ItemRead(items, name) == 1 + r && FindFirst(a, key) == None;
        assert r < |items[1..]| ==> Start(items, 1 + r) == |a| + 1 + Start(items[1..], r);
      }
    }
  }

  /**
   An item of exactly the searched name is the one the search stops at if and only if no earlier item
   holds the key, neither at the end of its name nor in its value; then its value is the one read.
   */
  lemma ExactItemRead(items: seq<Item>, name: string, i: nat)
    requires forall item | item in items :: item.Joinable()
    requires i < |items| && items[i].name == name
    ensures FindFirst(Print(items), name + "=") == Some(Start(items, i)) <==>
            forall j | 0 <= j < i :: !Holds(items[j], name)
    ensures FindFirst(Print(items), name + "=") == Some(Start(items, i)) <==>
            forall j | 0 <= j < i :: FindFirst(items[j].Print(), name + "=").None?
    ensures var r := ItemRead(items, name);
            && r <= i && ItemValue(Print(items), name + "=") == Reads(items[r], name)
            && (r == i ==> ItemValue(Print(items), name + "=") == items[i].value)
  {
    assert items[i] in items && EndsWith(name, name);
    SearchIsLookup(items, name);
    LookupRead(items, name);
    SearchLands(items, name);
    var r := ItemRead(items, name);
    ItemSearch(items[i], name);
    if r < i {
      StartsLater(items, r, i);
    }
    forall j | 0 <= j < i
      ensures FindFirst(items[j].Print(), name + "=").None? <==> !Holds(items[j], name)
    {
      ItemValueInItem(items[j], name);
    }
  }

  /** When no value has an '=', only the ends of the earlier names matter. */
  lemma PlainItemRead(items: seq<Item>, name: string, i: nat)
    requires forall item | item in items :: item.Plain()
    requires i < |items| && items[i].name == name
    ensures var r := ItemRead(items, name);
            r <= i && ItemValue(Print(items), name + "=") == items[r].value
    ensures ItemRead(items, name) == i <==> forall j | 0 <= j < i :: !EndsWith(items[j].name, name)
  {
    forall j | 0 <= j < |items|
      ensures items[j].Joinable() && (Holds(items[j], name) <==> EndsWith(items[j].name, name))
    {
      assert items[j] in items;
      PlainHolds(items[j], name);
    }
    ExactItemRead(items, name, i);
  }

  /** In every text, an item that starts with the key is the one read if and only if the key is nowhere before it. */
  lemma MeantItemRead(text: string, name: string, p: nat)
    requires '&' !in name && OccursAt(text, name + "=", p) && (p == 0 || text[p - 1] == '&')
    ensures FindFirst(text, name + "=") == Some(p) <==> FindFirst(text[..p], name + "=").None?
    ensures FindFirst(text, name + "=") == Some(p) ==>
              ItemValue(text, name + "=") == Before(text[p + |name| + 1..], '&')
  {
    var key := name + "=";
    FindFirstIsFirst(text[..p], key);
    FindFirstIsFirst(text, key);
    forall i: nat | i < p
      ensures OccursAt(text, key, i) <==> OccursAt(text[..p], key, i)
    {
      if i + |key| <= p {
        assert text[..p][i..i + |key|] == text[i..i + |key|];
      } else if i + |key| <= |text| {
        OccursNotAcross(text, key, i, p - 1);
      }
    }
    if FindFirst(text[..p], key).None? {
      FindFirstIs(text, key, Some(p));
    }
  }

  /** An item that holds the key hides the one that was meant. */
  lemma OtherItemRead(first: Item, other: Item, exact: Item)
    requires first.Joinable() && other.Joinable() && exact.Joinable()
    requires Holds(other, exact.name) && !Holds(first, exact.name)
    ensures ItemValue(Print([first, other, exact]), exact.name + "=") == Reads(other, exact.name)
  {
    var items := [first, other, exact];
    ExactItemRead(items, exact.name, 2);
    assert Holds(items[1], exact.name) && !Holds(items[0], exact.name);
  }

  // ----- the five fields -----

  datatype FieldId = ProjectID | VendorID | STBID | ChipID | MAC

  function Name(id: FieldId): string {
    match id
    case ProjectID => "ProjectID"
    case VendorID => "VendorID"
    case STBID => "STBID"
    case ChipID => "ChipID"
    case MAC => "MAC"
  }

  function Value(f: Fields, id: FieldId): string {
    match id
    case ProjectID => f.projectid
    case VendorID => f.vendorid
    case STBID => f.stbid
    case ChipID => f.chipid
    case MAC => f.macaddr
  }

  function FieldItems(order: seq<FieldId>, f: Fields): (items: seq<Item>)
    ensures |items| == |order|
    ensures forall i | 0 <= i < |order| :: items[i] == Item(Name(order[i]), Value(f, order[i]))
  {
    seq(|order|, i requires 0 <= i < |order| => Item(Name(order[i]), Value(f, order[i])))
  }

  /** `Query=0` followed by the named fields in the given order. */
  function Request(order: seq<FieldId>, f: Fields): string {
    Print([Item("Query", "0")] + FieldItems(order, f))
  }

  predicate PlainValue(s: string) {
    '&' !in s && '=' !in s && NUL !in s
  }

  /** The values may hold any character but the separator and NUL. */
  predicate Separate(f: Fields) {
    forall id: FieldId :: '&' !in Value(f, id) && NUL !in Value(f, id)
  }

  /** Where a value has another field's key in it, that field's own value follows. */
  predicate Undisturbed(f: Fields) {
    forall a: FieldId, id: FieldId | a != id && FindFirst(Value(f, a), Name(id) + "=").Some? ::
      ItemValue(Value(f, a), Name(id) + "=") == Value(f, id)
  }

  /** Values without an '=' disturb nothing. */
  lemma PlainUndisturbed(f: Fields)
    requires forall id: FieldId :: PlainValue(Value(f, id))
    ensures Separate(f) && Undisturbed(f)
  {
    forall a: FieldId, id: FieldId | a != id
      ensures FindFirst(Value(f, a), Name(id) + "=").None?
    {
      PlainHolds(Item("", Value(f, a)), Name(id));
      assert |Name(id)| > 0;
    }
  }

  /** The records a client may send. */
  predicate Printable(f: Fields) {
    && f.Bounded()
    && f.projectid != "" && f.vendorid != ""
    && |f.macaddr| in {0, MAC_LENGTH}
    && Separate(f) && Undisturbed(f)
  }

  /** The letter third from the end tells the names apart. */
  function Tell(id: FieldId): char {
    match id
    case ProjectID => 't'
    case VendorID => 'r'
    case STBID => 'B'
    case ChipID => 'p'
    case MAC => 'M'
  }

  lemma NameShape(id: FieldId)
    ensures '=' !in Name(id) && '&' !in Name(id) && NUL !in Name(id)
    ensures 3 <= |Name(id)| <= 9
    ensures Name(id)[|Name(id)| - 3] == Tell(id)
  {
  }

  lemma ThirdFromEnd(s: string, suffix: string)
    requires |s| >= 3 && |suffix| >= 3
    ensures EndsWith(s, suffix) ==> s[|s| - 3] == suffix[|suffix| - 3]
  {
  }

  /** No field name, nor "Query", ends with a different field's name. */
  lemma NamesApart(a: FieldId, b: FieldId)
    ensures EndsWith(Name(a), Name(b)) <==> a == b
  {
    NameShape(a);
    NameShape(b);
    ThirdFromEnd(Name(a), Name(b));
  }

  lemma QueryApart(b: FieldId)
    ensures !EndsWith("Query", Name(b))
  {
    NameShape(b);
    ThirdFromEnd("Query", Name(b));
    assert "Query"[2] == 'e';
  }

  /** So putting any item whose name merely ends with a field's name first replaces that field's value. */
  lemma PrefixedFieldRead(id: FieldId, prefix: string, other: string, value: string)
    requires PlainValue(prefix) && PlainValue(other) && PlainValue(value)
    ensures var items := [Item("Query", "0"), Item(prefix + Name(id), other), Item(Name(id), value)];
            ItemValue(Print(items), Name(id) + "=") == other
  {
    NameShape(id);
    QueryApart(id);
    assert (prefix + Name(id))[|prefix|..] == Name(id);
    PlainHolds(Item("Query", "0"), Name(id));
    OtherItemRead(Item("Query", "0"), Item(prefix + Name(id), other), Item(Name(id), value));
  }

  /** `Query=0&OldProjectID=1&ProjectID=2` is read as naming project 1. */
  lemma OtherProjectRead()
    ensures ItemValue(Print([Item("Query", "0"), Item("OldProjectID", "1"), Item("ProjectID", "2")]), "ProjectID=")
            == "1"
  {
    assert "Old" + "ProjectID" == "OldProjectID" && "ProjectID" + "=" == "ProjectID=";
    PrefixedFieldRead(ProjectID, "Old", "1", "2");
  }

  /** So does putting the field's key into the value of any item before it. */
  lemma QuotedFieldRead(id: FieldId, note: string, other: string, value: string)
    requires PlainValue(note) && PlainValue(other) && PlainValue(value) && !EndsWith(note, Name(id))
    ensures var items := [Item("Query", "0"), Item(note, Name(id) + "=" + other), Item(Name(id), value)];
            ItemValue(Print(items), Name(id) + "=") == other
  {
    NameShape(id);
    QueryApart(id);
    PlainHolds(Item("Query", "0"), Name(id));
    var key, inner := Name(id) + "=", Name(id) + "=" + other;
    assert inner[..|key|] == key && inner[|key|..] == other;
    FindFirstIs(inner, key, Some(0));
    BeforeIs(other, '&', other);
    OtherItemRead(Item("Query", "0"), Item(note, inner), Item(Name(id), value));
  }

  /** `Query=0&Note=ProjectID=1&ProjectID=2` is read as naming project 1. */
  lemma NotedProjectRead()
    ensures ItemValue(Print([Item("Query", "0"), Item("Note", "ProjectID=1"), Item("ProjectID", "2")]), "ProjectID=")
            == "1"
  {
    assert "ProjectID" + "=" == "ProjectID=" && "ProjectID" + "=" + "1" == "ProjectID=1";
    assert |"Note"| < |"ProjectID"|;
    QuotedFieldRead(ProjectID, "Note", "1", "2");
  }

  /** Every field's item that holds a key reads as that key's field. */
  lemma FieldReads(f: Fields, a: FieldId, id: FieldId)
    requires Undisturbed(f)
    ensures var item := Item(Name(a), Value(f, a));
            (a == id ==> Holds(item, Name(id))) && (Holds(item, Name(id)) ==> Reads(item, Name(id)) == Value(f, id))
  {
    NamesApart(a, id);
  }

  lemma {:induction false} LookupField(order: seq<FieldId>, f: Fields, id: FieldId)
    requires Undisturbed(f) && (id in order || Value(f, id) == "")
    ensures Lookup(FieldItems(order, f), Name(id)) == Value(f, id)
  {
    if order != [] {
      FieldReads(f, order[0], id);
      assert FieldItems(order, f)[1..] == FieldItems(order[1..], f);
      if order[0] != id {
        LookupField(order[1..], f, id);
      }
    }
  }

  /** `Query=0` alone or followed by '&'. */
  lemma RequestHead(order: seq<FieldId>, f: Fields)
    ensures var text := Request(order, f);
            && |text| >= 7 && text[..7] == "Query=0"
            && (|text| > 7 ==> text[7] == '&')
  {
    var items := [Item("Query", "0")] + FieldItems(order, f);
    assert items[0].Print() == "Query=0";
  }

  lemma QueryTypeZero(text: string)
    requires |text| >= 7 && text[..7] == "Query=0"
    requires |text| > 7 ==> text[7] == '&'
    ensures IsQuery(text) && QueryType(text) == "0"
  {
    assert forall i | 0 <= i < 7 :: text[i] == text[..7][i];
    assert text[..5] == "Query=0"[..5];
    BeforeIs(text, '=', text[..5]);
    assert SpanNot(text, '=') == 5;
    BeforeIs(text[6..], '&', "0");
  }

  lemma RequestJoinable(order: seq<FieldId>, f: Fields)
    requires Separate(f)
    ensures forall item | item in [Item("Query", "0")] + FieldItems(order, f) :: item.Joinable()
  {
    var items := [Item("Query", "0")] + FieldItems(order, f);
    forall item | item in items
      ensures item.Joinable()
    {
      if item != Item("Query", "0") {
        var i :| 0 <= i < |order| && item == FieldItems(order, f)[i];
        NameShape(order[i]);
      }
    }
  }

  /** The leading item holds no field's key, so the search looks on among the fields. */
  lemma FieldsSearched(order: seq<FieldId>, f: Fields, id: FieldId)
    requires Separate(f)
    ensures ItemValue(Request(order, f), Name(id) + "=") == Lookup(FieldItems(order, f), Name(id))
  {
    var first, rest := Item("Query", "0"), FieldItems(order, f);
    RequestJoinable(order, f);
    NameShape(id);
    SearchIsLookup([first] + rest, Name(id));
    QueryApart(id);
    PlainHolds(first, Name(id));
    assert ([first] + rest)[1..] == rest;
  }

  /** The parser reads back each field printed, wherever it was put. */
  lemma FieldReadBack(order: seq<FieldId>, f: Fields, id: FieldId)
    requires Separate(f) && Undisturbed(f)
    requires Value(f, id) != "" ==> id in order
    ensures ItemValue(Request(order, f), Name(id) + "=") == Value(f, id)
  {
    FieldsSearched(order, f, id);
    LookupField(order, f, id);
  }

  /** Every field that is not empty is printed. */
  predicate Covers(order: seq<FieldId>, f: Fields) {
    forall id: FieldId | Value(f, id) != "" :: id in order
  }

  lemma SentValue(text: string, id: FieldId)
    ensures Value(Sent(text), id) == ItemValue(text, Name(id) + "=")
  {
    match id
    case ProjectID => assert Name(ProjectID) + "=" == "ProjectID=";
    case VendorID => assert Name(VendorID) + "=" == "VendorID=";
    case STBID => assert Name(STBID) + "=" == "STBID=";
    case ChipID => assert Name(ChipID) + "=" == "ChipID=";
    case MAC => assert Name(MAC) + "=" == "MAC=";
  }

  lemma SameValues(f: Fields, g: Fields)
    requires forall id: FieldId :: Value(f, id) == Value(g, id)
    ensures f == g
  {
    assert Value(f, ProjectID) == Value(g, ProjectID) && Value(f, VendorID) == Value(g, VendorID);
    assert Value(f, STBID) == Value(g, STBID) && Value(f, ChipID) == Value(g, ChipID);
    assert Value(f, MAC) == Value(g, MAC);
  }

  lemma SentReadBack(order: seq<FieldId>, f: Fields)
    requires Separate(f) && Undisturbed(f) && Covers(order, f)
    ensures Sent(Request(order, f)) == f
  {
    var text := Request(order, f);
    forall id: FieldId
      ensures Value(Sent(text), id) == Value(f, id)
    {
      SentValue(text, id);
      FieldReadBack(order, f, id);
    }
    SameValues(Sent(text), f);
  }

  /** A value that has another field's key in it is misread when it comes first, if what follows the key differs. */
  lemma DisturbedField(f: Fields, a: FieldId, id: FieldId, rest: seq<FieldId>)
    requires Separate(f) && a != id && FindFirst(Value(f, a), Name(id) + "=").Some?
    ensures Value(Sent(Request([a] + rest, f)), id) == ItemValue(Value(f, a), Name(id) + "=")
  {
    SentValue(Request([a] + rest, f), id);
    FieldsSearched([a] + rest, f, id);
    NamesApart(a, id);
  }

  const ALL_FIELDS: seq<FieldId> := [ProjectID, VendorID, STBID, ChipID, MAC]

  lemma EveryField(id: FieldId)
    ensures id in ALL_FIELDS
  {
    match id
    case ProjectID => assert ALL_FIELDS[0] == id;
    case VendorID => assert ALL_FIELDS[1] == id;
    case STBID => assert ALL_FIELDS[2] == id;
    case ChipID => assert ALL_FIELDS[3] == id;
    case MAC => assert ALL_FIELDS[4] == id;
  }

  lemma OrderMisread(f: Fields, a: FieldId, id: FieldId) returns (order: seq<FieldId>)
    requires Separate(f) && a != id && FindFirst(Value(f, a), Name(id) + "=").Some?
    requires ItemValue(Value(f, a), Name(id) + "=") != Value(f, id)
    ensures Covers(order, f) && Sent(Request(order, f)) != f
  {
    order := [a] + ALL_FIELDS;
    forall other: FieldId
      ensures other in order
    {
      EveryField(other);
    }
    DisturbedField(f, a, id, ALL_FIELDS);
  }

  /** A record survives printing in every order exactly when no value misleads the search for another field. */
  lemma OrdersReadBack(f: Fields)
    requires Separate(f)
    ensures (forall order | Covers(order, f) :: Sent(Request(order, f)) == f) <==> Undisturbed(f)
  {
    if Undisturbed(f) {
      forall order | Covers(order, f)
        ensures Sent(Request(order, f)) == f
      {
        SentReadBack(order, f);
      }
    } else {
      var a: FieldId, id: FieldId :| a != id && FindFirst(Value(f, a), Name(id) + "=").Some? &&
                                     ItemValue(Value(f, a), Name(id) + "=") != Value(f, id);
      var order := OrderMisread(f, a, id);
    }
  }

  lemma PrintableAccepted(f: Fields)
    requires Printable(f)
    ensures AuthOutcome(f) == State(if f.NoDevice() then QueryAuthSum else QueryAuthState, NullError, f)
  {
    assert Passes(f, CHECK_COUNT);
    StopsNowhere(f);
  }

  /**
   Parsing undoes printing: for every printable record and every order of the fields, in particular
   every permutation of all five (empty fields may also be omitted and fields repeated).
   */
  lemma ParseUndoesPrint(order: seq<FieldId>, f: Fields)
    requires Printable(f) && Covers(order, f)
    ensures Parsed(Request(order, f)) == State(if f.NoDevice() then QueryAuthSum else QueryAuthState, NullError, f)
  {
    var text := Request(order, f);
    RequestHead(order, f);
    QueryTypeZero(text);
    SentReadBack(order, f);
    PrintableAccepted(f);
  }

  /** The printed request contains no NUL, and with at most five fields it fits the 256-byte request buffer. */
  lemma {:induction false} PrintFits(items: seq<Item>)
    requires items != []
    requires forall item | item in items :: NUL !in item.name && NUL !in item.value && |item.name| + |item.value| <= 38
    ensures NUL !in Print(items) && |Print(items)| < 41 * |items|
  {
    if |items| > 1 {
      PrintFits(items[1..]);
    }
  }

  lemma ItemShort(f: Fields, id: FieldId)
    requires f.Bounded()
    ensures |Name(id)| + |Value(f, id)| <= 38
  {
    assert |Name(STBID)| == 5 && |Name(ChipID)| == 6 && |Name(MAC)| == 3;
  }

  lemma RequestFits(order: seq<FieldId>, f: Fields)
    requires Printable(f)
    ensures NUL !in Request(order, f)
    ensures |order| <= 5 ==> |Request(order, f)| < 256
  {
    var items := [Item("Query", "0")] + FieldItems(order, f);
    forall item | item in items
      ensures NUL !in item.name && NUL !in item.value && |item.name| + |item.value| <= 38
    {
      if item != Item("Query", "0") {
        var i :| 0 <= i < |order| && item == FieldItems(order, f)[i];
        NameShape(order[i]);
        ItemShort(f, order[i]);
      }
    }
    PrintFits(items);
  }
}
