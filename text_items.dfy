/**
 * Text items and the operations on the ordered list of them: creation (`addText`), lookup by id
 * (`Array.prototype.find` in `getActiveText`), removal by id (`filter` in `deleteActiveText`),
 * the top-most-first hit scan (`hitTestText`) and moving an item (the pointer-move handler).
 */
module TextItems {
  import opened Wrappers
  import opened JsText

  type Id = string

  datatype Point = Point(x: real, y: real)

  datatype TextItem = TextItem(
    id: Id, text: string, x: real, y: real, color: string, size: int, rotation: int,
    fontFamily: string, weight: int, italic: bool, underline: bool, strike: bool)

  /**
   * The style fields of the mutable `textDefaults` object that a new item copies; the font
   * picker and the style chips change them between additions.
   */
  datatype StyleDefaults = StyleDefaults(
    fontFamily: string, weight: int, italic: bool, underline: bool, strike: bool)

  const CanvasSize: int := 1080
  const DefaultSize: int := 36
  const DefaultRotation: int := 0
  const PlaceholderText := "Enter your text"
  /** Generated ids are `text-<timestamp>-<random hex>`. */
  const IdPrefix := "text-"

  predicate IsGeneratedId(id: Id) {
    StartsWith(id, IdPrefix)
  }

  /** A generated id is truthy and never the photo drag target's name. */
  lemma GeneratedIdIsDistinct(id: Id)
    requires IsGeneratedId(id)
    ensures id != "" && id != "photo"
  {
    assert id[0] == 't';
  }

  predicate AllGenerated(s: seq<TextItem>) {
    forall i :: 0 <= i < |s| ==> IsGeneratedId(s[i].id)
  }

  predicate HasId(s: seq<TextItem>, id: Id) {
    exists i :: 0 <= i < |s| && s[i].id == id
  }

  predicate UniqueIds(s: seq<TextItem>) {
    forall i, j :: 0 <= i < j < |s| ==> s[i].id != s[j].id
  }

  /** JavaScript's `parseInt(input, 10) || fallback`: NaN and zero are falsy. */
  function ParsedOr(input: string, fallback: int): (r: int)
    ensures ParseInt(input).None? || ParseInt(input) == Some(0) ==> r == fallback
    ensures ParseInt(input).Some? && ParseInt(input).value != 0 ==> r == ParseInt(input).value
  {
    var p := ParseInt(input);
    if p.Some? && p.value != 0 then p.value else fallback
  }

  /** `input.trim() || "Enter your text"`. */
  function Content(input: string): (r: string)
    ensures (forall i :: 0 <= i < |input| ==> IsWhitespace(input[i])) ==> r == PlaceholderText
    ensures !(forall i :: 0 <= i < |input| ==> IsWhitespace(input[i])) ==>
              r == Trim(input) && !IsWhitespace(r[0]) && !IsWhitespace(r[|r| - 1])
  {
    var trimmed := Trim(input);
    if trimmed == "" then PlaceholderText else trimmed
  }

  /** The item `addText` appends, for the given fresh id, inputs, swatch colour and style. */
  function NewTextItem(id: Id, input: string, sizeInput: string, rotationInput: string,
                       color: string, style: StyleDefaults): (r: TextItem)
    ensures r.id == id && r.x == (CanvasSize / 2) as real && r.y == (CanvasSize / 2) as real
    ensures (forall i :: 0 <= i < |input| ==> IsWhitespace(input[i])) ==> r.text == PlaceholderText
    ensures !(forall i :: 0 <= i < |input| ==> IsWhitespace(input[i])) ==>
              r.text == Trim(input) && !IsWhitespace(r.text[0]) && !IsWhitespace(r.text[|r.text| - 1])
    ensures r.size != 0
    ensures ParseInt(sizeInput).None? || ParseInt(sizeInput) == Some(0) ==> r.size == DefaultSize
    ensures ParseInt(sizeInput).Some? && ParseInt(sizeInput).value != 0 ==>
              r.size == ParseInt(sizeInput).value
    ensures ParseInt(rotationInput).None? ==> r.rotation == DefaultRotation
    ensures ParseInt(rotationInput).Some? ==> r.rotation == ParseInt(rotationInput).value
    ensures r.color == color && r.fontFamily == style.fontFamily && r.weight == style.weight
    ensures r.italic == style.italic && r.underline == style.underline && r.strike == style.strike
  {
    TextItem(
      id, Content(input), (CanvasSize / 2) as real, (CanvasSize / 2) as real, color,
      ParsedOr(sizeInput, DefaultSize), ParsedOr(rotationInput, DefaultRotation),
      style.fontFamily, style.weight, style.italic, style.underline, style.strike)
  }

  /** A size slider holding the text of a non-zero integer gives the new item exactly that size. */
  lemma NewTextItemSizeFromSlider(id: Id, input: string, n: int, rotationInput: string,
                                  color: string, style: StyleDefaults)
    requires n != 0
    ensures NewTextItem(id, input, IntString(n), rotationInput, color, style).size == n
  {
    ParseIntRoundTrip(n, "");
    assert IntString(n) + "" == IntString(n);
  }

  /** `s.find(t => t.id === id)`, as the index of the first item with that id. */
  function FirstIndexOf(s: seq<TextItem>, id: Id): (r: Option<nat>)
    ensures r.Some? ==> r.value < |s| && s[r.value].id == id
    ensures r.Some? ==> forall j :: 0 <= j < r.value ==> s[j].id != id
    ensures r.None? <==> !HasId(s, id)
  {
    if |s| == 0 then None
    else if s[0].id == id then Some(0)
    else match FirstIndexOf(s[1..], id)
      case None => None
      case Some(k) => Some(k + 1)
  }

  /** Lists with the same ids at the same places find an id at the same place. */
  lemma {:induction false} FirstIndexOfSameIds(s: seq<TextItem>, t: seq<TextItem>, id: Id)
    requires |s| == |t|
    requires forall i :: 0 <= i < |s| ==> s[i].id == t[i].id
    ensures FirstIndexOf(s, id) == FirstIndexOf(t, id)
  {
    if |s| > 0 && s[0].id != id {
      FirstIndexOfSameIds(s[1..], t[1..], id);
    }
  }

  /** `s.filter(t => t.id !== id)`. */
  function RemoveId(s: seq<TextItem>, id: Id): (r: seq<TextItem>)
    ensures |r| <= |s|
    ensures forall t :: t in r ==> t in s && t.id != id
    ensures forall t :: t in s && t.id != id ==> t in r
  {
    if |s| == 0 then []
    else if s[0].id == id then RemoveId(s[1..], id)
    else [s[0]] + RemoveId(s[1..], id)
  }

  /** Filtering distributes over concatenation: the kept items stay in their order. */
  lemma {:induction false} RemoveIdAppend(a: seq<TextItem>, b: seq<TextItem>, id: Id)
    ensures RemoveId(a + b, id) == RemoveId(a, id) + RemoveId(b, id)
  {
    if |a| > 0 {
      assert (a + b)[1..] == a[1..] + b;
      RemoveIdAppend(a[1..], b, id);
    } else {
      assert a + b == b;
    }
  }

  /** Removing an id nobody has changes nothing. */
  lemma {:induction false} RemoveIdAbsent(s: seq<TextItem>, id: Id)
    requires !HasId(s, id)
    ensures RemoveId(s, id) == s
  {
    if |s| > 0 {
      assert !HasId(s[1..], id) by {
        forall i | 0 <= i < |s[1..]| ensures s[1..][i].id != id {
          assert s[1..][i] == s[i + 1];
        }
      }
      RemoveIdAbsent(s[1..], id);
    }
  }

  /** Removing the id of an item that no item before or after it has leaves those items around it. */
  lemma {:induction false} RemoveIdBetween(head: seq<TextItem>, x: TextItem, tail: seq<TextItem>)
    requires !HasId(head, x.id) && !HasId(tail, x.id)
    ensures RemoveId(head + [x] + tail, x.id) == head + tail
  {
    var id := x.id;
    assert RemoveId([x], id) == [] by {
      assert [x][1..] == [];
    }
    calc {
      RemoveId(head + [x] + tail, id);
      { assert head + [x] + tail == head + ([x] + tail); }
      RemoveId(head + ([x] + tail), id);
      { RemoveIdAppend(head, [x] + tail, id); }
      RemoveId(head, id) + RemoveId([x] + tail, id);
      { RemoveIdAppend([x], tail, id); }
      RemoveId(head, id) + (RemoveId([x], id) + RemoveId(tail, id));
      { RemoveIdAbsent(head, id); RemoveIdAbsent(tail, id); }
      head + ([] + tail);
      { assert [] + tail == tail; }
      head + tail;
    }
  }

  /** With unique ids, removing the id of item k removes exactly that item. */
  lemma {:induction false} RemoveIdUnique(s: seq<TextItem>, k: nat)
    requires UniqueIds(s) && k < |s|
    ensures RemoveId(s, s[k].id) == s[..k] + s[k + 1..]
  {
    var id := s[k].id;
    var head, tail := s[..k], s[k + 1..];
    assert !HasId(head, id) by {
      forall i | 0 <= i < |head| ensures head[i].id != id {
        assert head[i] == s[i];
      }
    }
    assert !HasId(tail, id) by {
      forall i | 0 <= i < |tail| ensures tail[i].id != id {
        assert tail[i] == s[k + 1 + i];
      }
    }
    assert s == head + [s[k]] + tail;
    RemoveIdBetween(head, s[k], tail);
  }

  /** Adding an item with a fresh id and then removing that id gives back the list. */
  lemma AddThenRemove(s: seq<TextItem>, t: TextItem)
    requires !HasId(s, t.id)
    ensures RemoveId(s + [t], t.id) == s
  {
    RemoveIdAppend(s, [t], t.id);
    RemoveIdAbsent(s, t.id);
    assert s + [] == s;
  }

  /**
   * Appending an item with a fresh id keeps ids unique, `find` then locates it last, and every
   * id found before is still found.
   */
  lemma {:induction false} AppendFresh(s: seq<TextItem>, t: TextItem)
    requires UniqueIds(s) && !HasId(s, t.id)
    ensures UniqueIds(s + [t])
    ensures FirstIndexOf(s + [t], t.id) == Some(|s|)
    ensures forall id :: HasId(s, id) ==> HasId(s + [t], id)
  {
    var r := s + [t];
    assert forall i :: 0 <= i < |s| ==> r[i] == s[i];
    assert r[|s|] == t;
    assert HasId(r, t.id);
  }

  /** Appending an item with a generated id keeps every id generated. */
  lemma AppendGenerated(s: seq<TextItem>, t: TextItem)
    requires AllGenerated(s) && IsGeneratedId(t.id)
    ensures AllGenerated(s + [t])
  {
    var r := s + [t];
    forall i | 0 <= i < |r| ensures IsGeneratedId(r[i].id) {
      if i < |s| {
        assert r[i] == s[i];
      }
    }
  }

  /** Removal keeps ids unique. */
  lemma {:induction false} RemoveIdKeepsUnique(s: seq<TextItem>, id: Id)
    requires UniqueIds(s)
    ensures UniqueIds(RemoveId(s, id))
  {
    if |s| > 0 {
      assert UniqueIds(s[1..]) by {
        forall i, j | 0 <= i < j < |s[1..]| ensures s[1..][i].id != s[1..][j].id {
          assert s[1..][i] == s[i + 1] && s[1..][j] == s[j + 1];
        }
      }
      RemoveIdKeepsUnique(s[1..], id);
      var rest := RemoveId(s[1..], id);
      if s[0].id != id {
        forall j | 0 <= j < |rest| ensures rest[j].id != s[0].id {
          assert rest[j] in s[1..];
        }
        assert UniqueIds([s[0]] + rest) by {
          forall i, j | 0 <= i < j < |[s[0]] + rest|
            ensures ([s[0]] + rest)[i].id != ([s[0]] + rest)[j].id
          {
            if i > 0 {
              assert ([s[0]] + rest)[i] == rest[i - 1];
            }
            assert ([s[0]] + rest)[j] == rest[j - 1];
          }
        }
      }
    }
  }

  /**
   * `hitTestText`'s choice: scanning from the last (top-most) item down, the first item whose
   * box contains the point. The containment test itself is the parameter `contains`.
   */
  function TopmostHit(s: seq<TextItem>, p: Point, contains: (TextItem, Point) -> bool): (r: Option<nat>)
    ensures r.Some? ==> r.value < |s| && contains(s[r.value], p)
    ensures r.Some? ==> forall j :: r.value < j < |s| ==> !contains(s[j], p)
    ensures r.None? ==> forall j :: 0 <= j < |s| ==> !contains(s[j], p)
  {
    if |s| == 0 then None
    else if contains(s[|s| - 1], p) then Some(|s| - 1)
    else TopmostHit(s[..|s| - 1], p, contains)
  }

  /** The three facts a scan establishes pin its answer down to the top-most hit. */
  lemma TopmostHitIsUnique(s: seq<TextItem>, p: Point, contains: (TextItem, Point) -> bool, hit: Option<nat>)
    requires hit.Some? ==> hit.value < |s| && contains(s[hit.value], p)
    requires hit.Some? ==> forall j :: hit.value < j < |s| ==> !contains(s[j], p)
    requires hit.None? ==> forall j :: 0 <= j < |s| ==> !contains(s[j], p)
    ensures hit == TopmostHit(s, p, contains)
  {
  }

  /** A newly added item is on top: it wins the hit test wherever it contains the point. */
  lemma TopmostHitAfterAdd(s: seq<TextItem>, t: TextItem, p: Point, contains: (TextItem, Point) -> bool)
    ensures TopmostHit(s + [t], p, contains)
            == if contains(t, p) then Some(|s|) else TopmostHit(s, p, contains)
  {
    assert (s + [t])[..|s|] == s;
  }

  /** Of two items that both contain the point, the later one is never passed over. */
  lemma LaterItemWins(s: seq<TextItem>, p: Point, contains: (TextItem, Point) -> bool, i: nat, j: nat)
    requires i < j < |s| && contains(s[i], p) && contains(s[j], p)
    ensures TopmostHit(s, p, contains).Some? && TopmostHit(s, p, contains).value >= j
  {
  }

  /** The position `origin + (pos - start)` a drag puts its target at. */
  function DraggedTo(origin: Point, start: Point, pos: Point): (r: Point)
    ensures r.x - origin.x == pos.x - start.x && r.y - origin.y == pos.y - start.y
  {
    Point(origin.x + (pos.x - start.x), origin.y + (pos.y - start.y))
  }

  /**
   * The pointer-move update of a text target: the first item with the id gets position `to`;
   * without such an item the list is unchanged.
   */
  function MoveItem(s: seq<TextItem>, id: Id, to: Point): (r: seq<TextItem>)
    ensures |r| == |s|
    ensures forall i :: 0 <= i < |s| ==> r[i].id == s[i].id
    ensures forall i :: 0 <= i < |s| && s[i].id != id ==> r[i] == s[i]
    ensures !HasId(s, id) ==> r == s
    ensures UniqueIds(s) ==> forall i :: 0 <= i < |s| && s[i].id == id ==> r[i] == s[i].(x := to.x, y := to.y)
  {
    match FirstIndexOf(s, id)
    case None => s
    case Some(k) => s[k := s[k].(x := to.x, y := to.y)]
  }

  /** Only the last move of a drag counts: moving twice is moving once to the second place. */
  lemma MoveItemTwice(s: seq<TextItem>, id: Id, a: Point, b: Point)
    ensures MoveItem(MoveItem(s, id, a), id, b) == MoveItem(s, id, b)
  {
    FirstIndexOfSameIds(s, MoveItem(s, id, a), id);
  }
}
