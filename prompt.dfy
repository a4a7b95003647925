/** `build_prompt`: the fixed system prompt, and the user prompt assembled line by line from
    the customer record, the nearby store, the retrieved documents and the message, then
    joined with newlines. */
module Prompt {
  import opened Wrappers
  import opened Text
  import opened Records

  const SystemPrompt: string :=
    "You are a hyper-personalized retail assistant for a coffee shop chain.\n"
    + "\n"
    + "Your role:\n"
    + "- Provide helpful, specific, and context-aware responses\n"
    + "- Use customer history and preferences to personalize suggestions\n"
    + "- Mention nearby stores, distances, and operating hours when relevant\n"
    + "- Highlight available coupons and discounts\n"
    + "- Be warm, friendly, and concise\n"
    + "- If the user expresses a need (like \"I'm cold\"), proactively suggest relevant products\n"
    + "\n"
    + "Guidelines:\n"
    + "- Always prioritize customer satisfaction\n"
    + "- Use the provided context to give specific answers\n"
    + "- Don't make up information not in the context\n"
    + "- Keep responses conversational and natural\n"

  const CustomerHeader := "=== CUSTOMER CONTEXT ==="
  const StoreHeader := "=== NEARBY STORE ==="
  const DocsHeader := "=== RELEVANT INFORMATION ==="
  const MessageHeader := "=== CUSTOMER MESSAGE ==="

  /** The texts shown for a missing key. */
  const Unknown := "Unknown"
  const NoneText := "None"

  /** How many recent orders the prompt lists. */
  const ListedOrders := 3

  /** `order[k]` rendered, or the `KeyError` it raises. */
  function Item(row: Record, k: string, other: Value -> string): Result<string, PyError>
  {
    match FieldOf(row, k)
    case Some(v) => Ok(ToText(v, other))
    case None => Err(KeyError(k))
  }

  /** The line of one recent order; the first missing key raises. */
  function OrderLine(order: Record, other: Value -> string): Result<string, PyError>
  {
    match Item(order, "item_name", other)
    case Err(e) => Err(e)
    case Ok(name) =>
      match Item(order, "size", other)
      case Err(e) => Err(e)
      case Ok(size) =>
        match Item(order, "status", other)
        case Err(e) => Err(e)
        case Ok(status) => Ok("  - " + name + " (" + size + ") - " + status)
  }

  /** The line of one active coupon; the first missing key raises. */
  function CouponLine(coupon: Record, other: Value -> string): Result<string, PyError>
  {
    match Item(coupon, "description", other)
    case Err(e) => Err(e)
    case Ok(description) =>
      match Item(coupon, "valid_until", other)
      case Err(e) => Err(e)
      case Ok(until) => Ok("  - " + description + " (valid until " + until + ")")
  }

  /** The two kinds of rows the customer section lists. */
  datatype RowKind = Order | Coupon

  function RowLine(kind: RowKind, row: Record, other: Value -> string): Result<string, PyError>
  {
    match kind
    case Order => OrderLine(row, other)
    case Coupon => CouponLine(row, other)
  }

  /** The function that renders one row of the given kind. */
  function LineOf(kind: RowKind, other: Value -> string): Record -> Result<string, PyError>
  {
    (row: Record) => RowLine(kind, row, other)
  }

  /** The lines of `rows` one after the other; the first row that raises ends the rendering
      with its error (`RenderOk`, `RenderErr`). */
  function Render(rows: seq<Record>, line: Record -> Result<string, PyError>): Result<seq<string>, PyError>
  {
    if rows == [] then Ok([])
    else
      match Render(rows[..|rows| - 1], line)
      case Err(e) => Err(e)
      case Ok(ls) =>
        match line(rows[|rows| - 1])
        case Err(e) => Err(e)
        case Ok(l) => Ok(ls + [l])
  }

  /** Rendered rows give one line each, in order. */
  lemma {:induction false} RenderOk(rows: seq<Record>, line: Record -> Result<string, PyError>)
    requires Render(rows, line).Ok?
    ensures |Render(rows, line).value| == |rows|
    ensures forall i :: 0 <= i < |rows| ==> line(rows[i]) == Ok(Render(rows, line).value[i])
    decreases |rows|
  {
    if rows != [] {
      var init := rows[..|rows| - 1];
      RenderOk(init, line);
      var ls := Render(init, line).value;
      var l := line(rows[|rows| - 1]).value;
      assert Render(rows, line).value == ls + [l];
      forall i | 0 <= i < |rows|
        ensures line(rows[i]) == Ok(Render(rows, line).value[i])
      {
        if i < |init| {
          assert init[i] == rows[i];
        }
      }
    }
  }

  /** Some row raises. */
  predicate SomeRaises(rows: seq<Record>, line: Record -> Result<string, PyError>)
  {
    exists i :: 0 <= i < |rows| && line(rows[i]).Err?
  }

  /** The rows raise exactly when the rows but the last raise or the last does. */
  lemma InitRaises(rows: seq<Record>, line: Record -> Result<string, PyError>)
    requires rows != []
    ensures SomeRaises(rows, line)
        <==> SomeRaises(rows[..|rows| - 1], line) || line(rows[|rows| - 1]).Err?
  {
    var init := rows[..|rows| - 1];
    if SomeRaises(rows, line) {
      var i :| 0 <= i < |rows| && line(rows[i]).Err?;
      if i < |init| {
        assert init[i] == rows[i];
      }
    }
    if SomeRaises(init, line) {
      var i :| 0 <= i < |init| && line(init[i]).Err?;
      assert init[i] == rows[i];
    }
  }

  /** Rendering raises exactly when some row raises, and then with the error of the first
      row that does. */
  lemma {:induction false} RenderErr(rows: seq<Record>, line: Record -> Result<string, PyError>)
    ensures Render(rows, line).Err? <==> SomeRaises(rows, line)
    ensures Render(rows, line).Err? ==>
              exists i :: 0 <= i < |rows| && line(rows[i]) == Err(Render(rows, line).error)
                          && forall j :: 0 <= j < i ==> line(rows[j]).Ok?
    decreases |rows|
  {
    if rows != [] {
      var init := rows[..|rows| - 1];
      RenderErr(init, line);
      InitRaises(rows, line);
      if Render(init, line).Err? {
        var i :| 0 <= i < |init| && line(init[i]) == Err(Render(init, line).error)
                 && forall j :: 0 <= j < i ==> line(init[j]).Ok?;
        assert forall j :: 0 <= j <= i ==> init[j] == rows[j];
      } else {
        assert forall j :: 0 <= j < |init| ==> init[j] == rows[j];
      }
    }
  }

  /** Once a prefix of the rows raises, so do all the rows, with the same error. */
  lemma {:induction false} RenderErrSticks(rows: seq<Record>, n: nat, line: Record -> Result<string, PyError>)
    requires n <= |rows| && Render(rows[..n], line).Err?
    ensures Render(rows, line) == Render(rows[..n], line)
    decreases |rows| - n
  {
    if n < |rows| {
      assert rows[..n + 1][..n] == rows[..n];
      RenderErrSticks(rows, n + 1, line);
    } else {
      assert rows[..n] == rows;
    }
  }

  /** What iterating a truthy value that is not a list of rows raises. */
  function NotRows(v: Value): PyError
  {
    match v
    case Str(_) => TypeError("string indices must be integers, not 'str'")
    case Int(_) => TypeError("object of type 'int' has no len()")
    case _ => TypeError("object of type 'float' has no len()")
  }

  /** The rows the prompt lists: the first three recent orders, every coupon. */
  function Shown(kind: RowKind, rows: seq<Record>): (r: seq<Record>)
    ensures kind == Order ==> |r| == if |rows| <= ListedOrders then |rows| else ListedOrders
    ensures kind == Coupon ==> r == rows
    ensures |r| <= |rows| && r == rows[..|r|]
  {
    if kind == Order && |rows| > ListedOrders then rows[..ListedOrders] else rows
  }

  function Heading(kind: RowKind, count: nat): string
  {
    match kind
    case Order => "\nRecent Orders (" + NatToString(count) + "):"
    case Coupon => "\nActive Coupons (" + NatToString(count) + "):"
  }

  /** The recent-orders or active-coupons block: nothing when the value is falsy; otherwise a
      heading with the number of rows, then one line for each row shown, in order. */
  function Block(kind: RowKind, v: Value, line: Record -> Result<string, PyError>): (r: Result<seq<string>, PyError>)
    ensures !Truthy(v) ==> r == Ok([])
    ensures Truthy(v) && !v.Rows? ==> r == Err(NotRows(v))
  {
    if !Truthy(v) then Ok([])
    else if !v.Rows? then Err(NotRows(v))
    else
      match Render(Shown(kind, v.rows), line)
      case Err(e) => Err(e)
      case Ok(ls) => Ok([Heading(kind, |v.rows|)] + ls)
  }

  /** A rendered block of rows is the heading with the total count, then one line for each
      row shown, in order. */
  lemma BlockRows(kind: RowKind, v: Value, line: Record -> Result<string, PyError>)
    requires Block(kind, v, line).Ok? && Truthy(v)
    ensures |Block(kind, v, line).value| == 1 + |Shown(kind, v.rows)|
    ensures Block(kind, v, line).value[0] == Heading(kind, |v.rows|)
    ensures forall i :: 0 <= i < |Shown(kind, v.rows)| ==>
              line(v.rows[i]) == Ok(Block(kind, v, line).value[i + 1])
  {
    var shown := Shown(kind, v.rows);
    RenderOk(shown, line);
    assert forall i :: 0 <= i < |shown| ==> shown[i] == v.rows[i];
  }

  function CustomerHead(customer: Record, other: Value -> string): seq<string>
  {
    [CustomerHeader,
     "Name: " + FieldShown(customer, "name", Unknown, other),
     "Loyalty Level: " + FieldShown(customer, "loyalty_level", NoneText, other),
     "Preferred Drink: " + FieldShown(customer, "preferred_drink", NoneText, other)]
  }

  /** The customer section: present exactly when the record is not empty, headed, closed by a
      blank line. */
  function CustomerSection(customer: Record, other: Value -> string): (r: Result<seq<string>, PyError>)
    ensures customer == [] ==> r == Ok([])
    ensures customer != [] && r.Ok? ==>
              |r.value| >= 5 && r.value[..4] == CustomerHead(customer, other) && r.value[|r.value| - 1] == ""
  {
    if customer == [] then Ok([])
    else
      match Block(Order, GetOr(customer, "recent_orders", Rows([])), LineOf(Order, other))
      case Err(e) => Err(e)
      case Ok(orders) =>
        match Block(Coupon, GetOr(customer, "active_coupons", Rows([])), LineOf(Coupon, other))
        case Err(e) => Err(e)
        case Ok(coupons) =>
          SectionShape(CustomerHead(customer, other), orders + coupons);
          Ok(CustomerHead(customer, other) + (orders + coupons) + [""])
  }

  /** Four heading lines, a body and a closing blank line start with the heading. */
  lemma SectionShape(head: seq<string>, body: seq<string>)
    requires |head| == 4
    ensures var lines := head + body + [""];
            |lines| >= 5 && lines[..4] == head && lines[|lines| - 1] == ""
  {
    assert (head + body + [""])[..4] == head;
  }

  /** The store section, present exactly when the store record is not empty. */
  function StoreSection(store: Record, other: Value -> string): (r: seq<string>)
    ensures store == [] <==> r == []
    ensures store != [] ==> |r| == 6 && r[0] == StoreHeader && r[5] == ""
  {
    if store == [] then []
    else
      [StoreHeader,
       "Name: " + FieldShown(store, "name", Unknown, other),
       "Distance: " + FieldShown(store, "distance_m", Unknown, other) + "m away",
       "Address: " + FieldShown(store, "address", Unknown, other),
       "Hours: " + FieldShown(store, "open_time", Unknown, other) + " - "
                 + FieldShown(store, "close_time", Unknown, other),
       ""]
  }

  /** The customer heading lines show the record's text fields, or `Unknown` for a missing
      name and `None` for a missing loyalty level or preferred drink. */
  lemma CustomerDefaults(customer: Record, other: Value -> string)
    ensures CustomerHead(customer, other)[0] == CustomerHeader
    ensures FieldOf(customer, "name").None? ==> CustomerHead(customer, other)[1] == "Name: " + Unknown
    ensures forall s :: FieldOf(customer, "name") == Some(Str(s)) ==>
              CustomerHead(customer, other)[1] == "Name: " + s
    ensures FieldOf(customer, "loyalty_level").None? ==>
              CustomerHead(customer, other)[2] == "Loyalty Level: " + NoneText
    ensures FieldOf(customer, "preferred_drink").None? ==>
              CustomerHead(customer, other)[3] == "Preferred Drink: " + NoneText
  {
    FieldText(customer, "name", Unknown, other);
    FieldText(customer, "loyalty_level", NoneText, other);
    FieldText(customer, "preferred_drink", NoneText, other);
  }

  /** The store's name and address lines fall back to `Unknown` for a missing key. */
  lemma StoreDefaults(store: Record, other: Value -> string)
    requires store != []
    ensures FieldOf(store, "name").None? ==> StoreSection(store, other)[1] == "Name: " + Unknown
    ensures forall s :: FieldOf(store, "name") == Some(Str(s)) ==>
              StoreSection(store, other)[1] == "Name: " + s
    ensures FieldOf(store, "address").None? ==> StoreSection(store, other)[3] == "Address: " + Unknown
  {
    FieldText(store, "name", Unknown, other);
    FieldText(store, "address", Unknown, other);
  }

  /** The distance line always ends in `m away`, with `Unknown` for a missing distance; the
      hours line falls back to `Unknown` on both sides. */
  lemma StoreDistanceHours(store: Record, other: Value -> string)
    requires store != []
    ensures FieldOf(store, "distance_m").None? ==>
              StoreSection(store, other)[2] == "Distance: " + Unknown + "m away"
    ensures forall s :: FieldOf(store, "distance_m") == Some(Str(s)) ==>
              StoreSection(store, other)[2] == "Distance: " + s + "m away"
    ensures FieldOf(store, "open_time").None? && FieldOf(store, "close_time").None? ==>
              StoreSection(store, other)[4] == "Hours: " + Unknown + " - " + Unknown
  {
    FieldText(store, "distance_m", Unknown, other);
    FieldText(store, "open_time", Unknown, other);
    FieldText(store, "close_time", Unknown, other);
  }

  /** `str(d.get(k, default))`. */
  function FieldShown(r: Record, k: string, default: string, other: Value -> string): string
  {
    ToText(GetOr(r, k, Str(default)), other)
  }

  /** A field is shown as the default when it is missing and as its own text when it is text. */
  lemma FieldText(r: Record, k: string, default: string, other: Value -> string)
    ensures FieldOf(r, k).None? ==> FieldShown(r, k, default, other) == default
    ensures forall s :: FieldOf(r, k) == Some(Str(s)) ==> FieldShown(r, k, default, other) == s
  {
  }

  function DocBlock(doc: string, i: nat): seq<string>
  {
    ["[Document " + NatToString(i) + "]", Strip(doc), ""]
  }

  /** The label, the stripped text and a blank line for each document in turn. */
  function DocLines(docs: seq<string>): (r: seq<string>)
    ensures |r| == 3 * |docs|
  {
    if docs == [] then []
    else DocLines(docs[..|docs| - 1]) + DocBlock(docs[|docs| - 1], |docs|)
  }

  /** Document `i` (from 0) is labelled `[Document i+1]` and sits at lines `3i` to `3i+2`. */
  lemma {:induction false} DocLinesAt(docs: seq<string>, i: nat)
    requires i < |docs|
    ensures DocLines(docs)[3 * i..3 * i + 3] == DocBlock(docs[i], i + 1)
    decreases |docs|
  {
    var init := docs[..|docs| - 1];
    var a, b := DocLines(init), DocBlock(docs[|docs| - 1], |docs|);
    assert DocLines(docs) == a + b;
    if i < |init| {
      assert a[3 * i..3 * i + 3] == DocBlock(docs[i], i + 1) by {
        DocLinesAt(init, i);
        assert init[i] == docs[i];
      }
      SliceLeft(a, b, 3 * i, 3 * i + 3);
    } else {
      SliceRight(a, b, 3 * i, 3 * i + 3);
    }
  }

  lemma SliceLeft(a: seq<string>, b: seq<string>, lo: nat, hi: nat)
    requires lo <= hi <= |a|
    ensures (a + b)[lo..hi] == a[lo..hi]
  {
  }

  lemma SliceRight(a: seq<string>, b: seq<string>, lo: nat, hi: nat)
    requires lo == |a| && hi == |a| + |b|
    ensures (a + b)[lo..hi] == b
  {
  }

  /** The retrieved-documents section, present exactly when there are documents. */
  function DocsSection(docs: seq<string>): (r: seq<string>)
    ensures docs == [] <==> r == []
    ensures docs != [] ==> r[0] == DocsHeader && |r| == 1 + 3 * |docs|
  {
    if docs == [] then [] else [DocsHeader] + DocLines(docs)
  }

  /** The lines of the user prompt, in section order, or what rendering them raises. */
  function UserLines(customer: Record, store: Record, docs: seq<string>, message: string,
                     other: Value -> string): Result<seq<string>, PyError>
  {
    match CustomerSection(customer, other)
    case Err(e) => Err(e)
    case Ok(c) => Ok(c + StoreSection(store, other) + DocsSection(docs) + [MessageHeader, message])
  }

  /** Whatever the contexts, the user prompt ends with the message heading and the message. */
  lemma EndsWithMessage(customer: Record, store: Record, docs: seq<string>, message: string,
                        other: Value -> string)
    requires UserLines(customer, store, docs, message, other).Ok?
    ensures exists pre :: Join(UserLines(customer, store, docs, message, other).value, "\n")
                          == pre + MessageHeader + "\n" + message
  {
    var c := CustomerSection(customer, other).value;
    JoinEndsWith(c + StoreSection(store, other) + DocsSection(docs), MessageHeader, message, "\n");
  }

  /** Only the customer section can raise, so with an empty customer record the prompt is
      always built. */
  lemma NoCustomerNoError(store: Record, docs: seq<string>, message: string, other: Value -> string)
    ensures UserLines([], store, docs, message, other).Ok?
  {
  }

  /** The appending loop over the rows shown, as the original's `for` over them. */
  method AppendRows(rows: seq<Record>, line: Record -> Result<string, PyError>)
    returns (r: Result<seq<string>, PyError>)
    ensures r == Render(rows, line)
  {
    var lines: seq<string> := [];
    for n := 0 to |rows|
      invariant Render(rows[..n], line) == Ok(lines)
    {
      assert rows[..n + 1][..n] == rows[..n];
      var next := line(rows[n]);
      if next.Err? {
        RenderErrSticks(rows, n + 1, line);
        return Err(next.error);
      }
      lines := lines + [next.value];
    }
    assert rows[..|rows|] == rows;
    r := Ok(lines);
  }

  /** The recent-orders or active-coupons part of `build_prompt`. */
  method AppendBlock(kind: RowKind, v: Value, line: Record -> Result<string, PyError>)
    returns (r: Result<seq<string>, PyError>)
    ensures r == Block(kind, v, line)
  {
    if !Truthy(v) {
      return Ok([]);
    }
    if !v.Rows? {
      return Err(NotRows(v));
    }
    var lines := AppendRows(Shown(kind, v.rows), line);
    if lines.Err? {
      return Err(lines.error);
    }
    r := Ok([Heading(kind, |v.rows|)] + lines.value);
  }

  /** The customer part of `build_prompt`: the heading lines, then the orders and coupons
      blocks, then a blank line. */
  method AppendCustomer(customer: Record, other: Value -> string)
    returns (r: Result<seq<string>, PyError>)
    ensures r == CustomerSection(customer, other)
  {
    if customer == [] {
      return Ok([]);
    }
    var orders := AppendBlock(Order, GetOr(customer, "recent_orders", Rows([])), LineOf(Order, other));
    if orders.Err? {
      return Err(orders.error);
    }
    var coupons := AppendBlock(Coupon, GetOr(customer, "active_coupons", Rows([])), LineOf(Coupon, other));
    if coupons.Err? {
      return Err(coupons.error);
    }
    r := Ok(CustomerHead(customer, other) + (orders.value + coupons.value) + [""]);
  }

  /** The loop over the retrieved documents, numbering them from 1. */
  method AppendDocs(docs: seq<string>) returns (lines: seq<string>)
    ensures lines == DocLines(docs)
  {
    lines := [];
    for i := 0 to |docs|
      invariant lines == DocLines(docs[..i])
    {
      assert docs[..i + 1][..i] == docs[..i];
      lines := lines + DocBlock(docs[i], i + 1);
    }
    assert docs[..|docs|] == docs;
  }

  /** `build_prompt(customer_ctx, store_ctx, rag_docs, user_message)`, appending the sections in
      the original's order. */
  method BuildPrompt(customer: Record, store: Record, docs: seq<string>, message: string,
                     other: Value -> string)
    returns (r: Result<(string, string), PyError>)
    ensures r.Err? <==> UserLines(customer, store, docs, message, other).Err?
    ensures r.Err? ==> r.error == UserLines(customer, store, docs, message, other).error
    ensures r.Ok? ==> r.value == (SystemPrompt, Join(UserLines(customer, store, docs, message, other).value, "\n"))
  {
    var parts := AppendCustomer(customer, other);
    if parts.Err? {
      return Err(parts.error);
    }
    var docPart: seq<string> := [];
    if docs != [] {
      var docLines := AppendDocs(docs);
      docPart := [DocsHeader] + docLines;
    }
    var lines := parts.value + StoreSection(store, other) + docPart + [MessageHeader, message];
    assert UserLines(customer, store, docs, message, other) == Ok(lines);
    var user := Join(lines, "\n");
    r := Ok((SystemPrompt, user));
  }
}
