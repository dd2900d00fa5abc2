/**
 * The Google-Sheets helpers the bot shares (app/utils/sheets.py): header lookup, the
 * normalised header key, row padding, and the two row loops that delete the rows of an
 * event and strip an event id out of the contact vault's JSON lists.
 *
 * A worksheet is a class holding its grid of cells; `UpdateCell` and `DeleteRow` are the
 * two gspread calls the loops make, with gspread's 1-based row and column numbers.
 */
module Sheets {
  import opened Wrappers
  import opened Text
  import Seqs

  type Row = seq<string>

  /** `ws.row_values(1)` with every header stripped (`get_headers`). */
  function Headers(rows: seq<Row>): (hs: seq<string>)
    ensures |rows| > 0 ==> |hs| == |rows[0]|
    ensures forall i :: 0 <= i < |hs| ==> |rows| > 0 && i < |rows[0]| && hs[i] == Strip(rows[0][i])
  {
    if rows == [] then [] else seq(|rows[0]|, i requires 0 <= i < |rows[0]| => Strip(rows[0][i]))
  }

  /** A header names one of the wanted aliases, compared stripped and lower-cased. */
  predicate Names(header: string, wanted: seq<string>) {
    wanted != [] && (Lower(Strip(header)) == Lower(wanted[0]) || Names(header, wanted[1..]))
  }

  lemma {:induction false} NamesIff(header: string, wanted: seq<string>)
    ensures Names(header, wanted) <==> exists w :: w in wanted && Lower(Strip(header)) == Lower(w)
  {
    if wanted != [] {
      NamesIff(header, wanted[1..]);
      assert forall w :: w in wanted <==> w == wanted[0] || w in wanted[1..];
    }
  }

  /** `find_col_index` from position `from` on: the first header naming one of the aliases. */
  function FindColFrom(headers: seq<string>, wanted: seq<string>, from: nat): (r: Option<nat>)
    requires from <= |headers|
    ensures r.Some? ==> from <= r.value < |headers| && Names(headers[r.value], wanted)
    ensures r.Some? ==> forall j :: from <= j < r.value ==> !Names(headers[j], wanted)
    ensures r.None? <==> forall j :: from <= j < |headers| ==> !Names(headers[j], wanted)
  {
    Seqs.FirstFrom(headers, h => Names(h, wanted), from)
  }

  /** `find_col_index`: the first header naming one of the aliases, else None. */
  function FindColIndex(headers: seq<string>, wanted: seq<string>): (r: Option<nat>)
    ensures r.Some? ==> r.value < |headers| && Names(headers[r.value], wanted)
    ensures r.Some? ==> forall j :: 0 <= j < r.value ==> !Names(headers[j], wanted)
    ensures r.None? <==> forall j :: 0 <= j < |headers| ==> !Names(headers[j], wanted)
  {
    FindColFrom(headers, wanted, 0)
  }

  /** The characters `_header_key` keeps: lower-case ASCII letters and digits. */
  predicate KeyChar(c: char) {
    'a' <= c <= 'z' || IsDigit(c)
  }

  predicate NotKeyChar(c: char) {
    !KeyChar(c)
  }

  /**
   * `_header_key`: strip, lower-case, and turn each run of other characters into one '_'. A key
   * holds only letters, digits and single underscores.
   */
  function HeaderKey(name: string): (k: string)
    ensures forall i :: 0 <= i < |k| ==> KeyChar(k[i]) || k[i] == '_'
    ensures forall i :: 0 <= i < |k| - 1 ==> !(k[i] == '_' && k[i + 1] == '_')
  {
    ReplaceRuns(Lower(Strip(name)), NotKeyChar, '_')
  }

  /** The letters and digits of the stripped, lower-cased header survive in order. */
  lemma HeaderKeyKeeps(name: string)
    ensures Filter(HeaderKey(name), KeyChar) == Filter(Lower(Strip(name)), KeyChar)
  {
    ReplaceRunsKeeps(Lower(Strip(name)), NotKeyChar, KeyChar, '_', false);
  }

  /** A '_' appears in the key exactly when the header held some other character. */
  lemma HeaderKeyMarks(name: string)
    ensures '_' in HeaderKey(name) <==> exists i :: 0 <= i < |Strip(name)| && NotKeyChar(Lower(Strip(name))[i])
  {
    ReplaceRunsMarks(Lower(Strip(name)), NotKeyChar, '_');
  }

  /** A key is its own key. */
  lemma HeaderKeyIdempotent(name: string)
    ensures HeaderKey(HeaderKey(name)) == HeaderKey(name)
  {
    var k := HeaderKey(name);
    StripNoOp(k);
    LowerNoUpper(k);
    ReplaceRunsNoOp(k, NotKeyChar, '_', false);
  }

  /**
   * `header_map.get(key)` where `header_map = {_header_key(h): idx …}`: later headers
   * overwrite earlier ones, so the LAST header whose key matches wins.
   */
  function HeaderIndex(headers: seq<string>, key: string): (r: Option<nat>)
    ensures r.Some? ==> r.value < |headers| && HeaderKey(headers[r.value]) == key
    ensures r.Some? ==> forall j :: r.value < j < |headers| ==> HeaderKey(headers[j]) != key
    ensures r.None? <==> forall j :: 0 <= j < |headers| ==> HeaderKey(headers[j]) != key
  {
    LastIndexOf(HeaderKeys(headers), key, |headers|)
  }

  /** The key of every header. */
  function HeaderKeys(headers: seq<string>): (keys: seq<string>)
    ensures |keys| == |headers|
    ensures forall i :: 0 <= i < |headers| ==> keys[i] == HeaderKey(headers[i])
  {
    seq(|headers|, i requires 0 <= i < |headers| => HeaderKey(headers[i]))
  }

  /** The last position below `upto` holding `x`. */
  function LastIndexOf<T(==)>(s: seq<T>, x: T, upto: nat): (r: Option<nat>)
    requires upto <= |s|
    ensures r.Some? ==> r.value < upto && s[r.value] == x
    ensures r.Some? ==> forall j :: r.value < j < upto ==> s[j] != x
    ensures r.None? <==> forall j :: 0 <= j < upto ==> s[j] != x
  {
    if upto == 0 then None
    else if s[upto - 1] == x then Some(upto - 1)
    else LastIndexOf(s, x, upto - 1)
  }

  /** `_ensure_row_length`: pad with empty cells up to `length`; never truncate. */
  function EnsureRowLength(row: Row, length: nat): (r: Row)
    ensures |r| == if |row| >= length then |row| else length
    ensures r[..|row|] == row
    ensures forall i :: |row| <= i < |r| ==> r[i] == ""
  {
    if |row| >= length then row else row + seq(length - |row|, _ => "")
  }

  /** The row after writing `value` into 0-based column `col`, padding as needed. */
  function SetCell(row: Row, col: nat, value: string): (r: Row)
    ensures |r| == if |row| > col then |row| else col + 1
    ensures r[col] == value
    ensures forall i :: 0 <= i < |row| && i != col ==> r[i] == row[i]
    ensures forall i :: |row| <= i < |r| && i != col ==> r[i] == ""
  {
    EnsureRowLength(row, col + 1)[col := value]
  }

  /** Writing inside the row only replaces that cell. */
  lemma SetCellInside(row: Row, col: nat, value: string)
    requires col < |row|
    ensures SetCell(row, col, value) == row[col := value]
  {
  }

  /** A worksheet: its grid of cell values, row by row, header row first. */
  class Worksheet {
    var rows: seq<Row>

    constructor(grid: seq<Row>)
      ensures rows == grid
    {
      rows := grid;
    }

    /** `ws.update_cell(row, col, value)` with 1-based coordinates. */
    method UpdateCell(row: nat, col: nat, value: string)
      requires 1 <= row <= |rows| && 1 <= col
      modifies this
      ensures rows == old(rows)[row - 1 := SetCell(old(rows)[row - 1], col - 1, value)]
    {
      rows := rows[row - 1 := SetCell(rows[row - 1], col - 1, value)];
    }

    /** `ws.delete_rows(row)`: the rows below move up by one. */
    method DeleteRow(row: nat)
      requires 1 <= row <= |rows|
      modifies this
      ensures rows == DropAt(old(rows), row - 1)
    {
      rows := DropAt(rows, row - 1);
    }
  }

  /** The grid once each data row below `upto` has been replaced by `f` of itself. */
  function UpdatedBelow(rows: seq<Row>, f: Row -> Row, upto: nat): (r: seq<Row>)
    ensures |r| == |rows|
    ensures forall i :: 0 <= i < |rows| ==> r[i] == if 1 <= i < upto then f(rows[i]) else rows[i]
  {
    seq(|rows|, i requires 0 <= i < |rows| => if 1 <= i < upto then f(rows[i]) else rows[i])
  }

  /** Updating one more row changes just that row. */
  lemma UpdatedStep(rows: seq<Row>, f: Row -> Row, upto: nat)
    requires 1 <= upto < |rows|
    ensures UpdatedBelow(rows, f, upto + 1) == UpdatedBelow(rows, f, upto)[upto := f(rows[upto])]
  {
  }

  // ---------------------------------------------------------------------------
  // Deleting the rows of an event (`delete_events_by_id`, `delete_referrals_by_event`)
  // ---------------------------------------------------------------------------

  /** A row whose id cell, stripped, is the id. */
  predicate IdMatches(row: Row, col: nat, id: string) {
    col < |row| && Strip(row[col]) == id
  }

  /** The 0-based indices of the matching data rows (the header row excluded), ascending. */
  function MatchingRows(rows: seq<Row>, col: nat, id: string): (m: seq<nat>)
    ensures forall k :: 0 <= k < |m| ==> 1 <= m[k] < |rows| && IdMatches(rows[m[k]], col, id)
    ensures forall k, l :: 0 <= k < l < |m| ==> m[k] < m[l]
    ensures forall i :: 1 <= i < |rows| && IdMatches(rows[i], col, id) ==> i in m
  {
    Seqs.IndicesWhere(rows, IdMatcher(col, id), 1, |rows|)
  }

  function IdMatcher(col: nat, id: string): Row -> bool {
    (row: Row) => IdMatches(row, col, id)
  }

  /** The rows of `s` whose index is not in `gone`, in their original order. */
  function RemoveIndices<T>(s: seq<T>, gone: seq<nat>): (r: seq<T>)
    ensures |r| <= |s|
  {
    if s == [] then []
    else RemoveIndices(s[..|s| - 1], gone) + (if |s| - 1 in gone then [] else [s[|s| - 1]])
  }

  /** Nothing below the first removed index moves. */
  lemma {:induction false} RemoveNoneBelow<T>(s: seq<T>, gone: seq<nat>)
    requires forall d :: d in gone ==> d >= |s|
    ensures RemoveIndices(s, gone) == s
  {
    if s != [] {
      RemoveNoneBelow(s[..|s| - 1], gone);
    }
  }

  /**
   * Deleting position `p` from a sheet from which only rows below `p` were deleted removes
   * row `p` of the original: this is why the loop deletes from the bottom up.
   */
  lemma {:induction false} DeleteAbove<T>(s: seq<T>, gone: seq<nat>, p: nat)
    requires p < |s| && p !in gone
    requires forall d :: d in gone ==> d > p
    ensures p < |RemoveIndices(s, gone)|
    ensures DropAt(RemoveIndices(s, gone), p) == RemoveIndices(s, [p] + gone)
  {
    var n := |s| - 1;
    if n == p {
      RemoveNoneBelow(s[..n], gone);
      RemoveNoneBelow(s[..n], [p] + gone);
      assert s[..n] + [s[n]] == s;
    } else {
      DeleteAbove(s[..n], gone, p);
      var tail := if n in gone then [] else [s[n]];
      DropAtAppend(RemoveIndices(s[..n], gone), tail, p);
    }
  }

  /** `r` without its element at `p`: what `delete_rows(p + 1)` does to the grid. */
  function DropAt<T>(r: seq<T>, p: nat): seq<T>
    requires p < |r|
  {
    r[..p] + r[p + 1..]
  }

  lemma DropAtAppend<T>(r: seq<T>, tail: seq<T>, p: nat)
    requires p < |r|
    ensures DropAt(r + tail, p) == DropAt(r, p) + tail
  {
    assert (r + tail)[..p] == r[..p];
    assert (r + tail)[p + 1..] == r[p + 1..] + tail;
  }

  /** A row survives the removal exactly when its index was not removed. */
  lemma {:induction false} RemoveIndicesMembers<T>(s: seq<T>, gone: seq<nat>)
    ensures forall x :: x in RemoveIndices(s, gone) ==> exists i :: 0 <= i < |s| && i !in gone && s[i] == x
    ensures forall i :: 0 <= i < |s| && i !in gone ==> s[i] in RemoveIndices(s, gone)
  {
    if s != [] {
      var n := |s| - 1;
      RemoveIndicesMembers(s[..n], gone);
      assert forall i :: 0 <= i < n ==> s[..n][i] == s[i];
    }
  }

  /** Removing `|gone|` distinct valid indices removes that many rows. */
  lemma {:induction false} RemoveIndicesLength<T>(s: seq<T>, gone: seq<nat>)
    requires forall k :: 0 <= k < |gone| ==> gone[k] < |s|
    requires forall k, l :: 0 <= k < l < |gone| ==> gone[k] < gone[l]
    ensures |RemoveIndices(s, gone)| == |s| - |gone|
  {
    if s != [] {
      var n := |s| - 1;
      if n in gone {
        var g := gone[..|gone| - 1];
        assert gone[|gone| - 1] == n;
        assert forall d :: d in gone && d < n ==> d in g;
        RemoveIndicesAgree(s[..n], gone, g);
        RemoveIndicesLength(s[..n], g);
      } else {
        RemoveIndicesLength(s[..n], gone);
      }
    }
  }

  /** The first row stays first when it is not removed. */
  lemma {:induction false} RemoveIndicesFirst<T>(s: seq<T>, gone: seq<nat>)
    requires |s| > 0 && 0 !in gone
    ensures |RemoveIndices(s, gone)| > 0 && RemoveIndices(s, gone)[0] == s[0]
  {
    if |s| > 1 {
      RemoveIndicesFirst(s[..|s| - 1], gone);
    } else {
      assert s[..0] == [];
    }
  }

  /** Only the indices below the length matter. */
  lemma {:induction false} RemoveIndicesAgree<T>(s: seq<T>, a: seq<nat>, b: seq<nat>)
    requires forall i :: 0 <= i < |s| ==> (i in a <==> i in b)
    ensures RemoveIndices(s, a) == RemoveIndices(s, b)
  {
    if s != [] {
      RemoveIndicesAgree(s[..|s| - 1], a, b);
    }
  }

  /** The first loop of `delete_events_by_id`: the data rows whose id cell matches. */
  method CollectMatching(rows: seq<Row>, idIdx: nat, id: string) returns (deleteRows: seq<nat>)
    ensures deleteRows == MatchingRows(rows, idIdx, id)
  {
    deleteRows := [];
    if |rows| == 0 {
      return;
    }
    var offset := 1;
    while offset < |rows|
      invariant 1 <= offset <= |rows|
      invariant deleteRows == Seqs.IndicesWhere(rows, IdMatcher(idIdx, id), 1, offset)
    {
      if IdMatches(rows[offset], idIdx, id) {
        deleteRows := deleteRows + [offset];
      }
      offset := offset + 1;
    }
  }

  /**
   * The second loop: delete the collected rows from the bottom up, so that each deletion
   * leaves the positions of the rows still to be deleted unchanged.
   */
  method DeleteDescending(ws: Worksheet, deleteRows: seq<nat>) returns (deleted: nat)
    requires forall k :: 0 <= k < |deleteRows| ==> deleteRows[k] < |ws.rows|
    requires forall k, l :: 0 <= k < l < |deleteRows| ==> deleteRows[k] < deleteRows[l]
    modifies ws
    ensures deleted == |deleteRows|
    ensures ws.rows == RemoveIndices(old(ws.rows), deleteRows)
  {
    var rows := ws.rows;
    deleted := 0;
    var k := |deleteRows|;
    assert deleteRows[k..] == [];
    RemoveNoneBelow(rows, []);
    while k > 0
      invariant 0 <= k <= |deleteRows|
      invariant deleted == |deleteRows| - k
      invariant ws.rows == RemoveIndices(rows, deleteRows[k..])
    {
      var p := deleteRows[k - 1];
      assert deleteRows[k - 1..] == [p] + deleteRows[k..];
      DeleteAbove(rows, deleteRows[k..], p);
      ws.DeleteRow(p + 1);
      deleted := deleted + 1;
      k := k - 1;
    }
  }

  /**
   * `delete_events_by_id` (and `delete_referrals_by_event`, the same loop on another sheet):
   * collect the data rows whose stripped `event_id` cell equals the stripped id, then delete
   * them from the bottom up. A blank id or a sheet without an `event_id` column deletes nothing.
   */
  method DeleteRowsWithId(ws: Worksheet, eventId: string) returns (deleted: nat)
    modifies ws
    ensures var id := Strip(eventId);
            var col := HeaderIndex(Headers(old(ws.rows)), "event_id");
            if id == [] || col.None? then deleted == 0 && ws.rows == old(ws.rows)
            else
              var m := MatchingRows(old(ws.rows), col.value, id);
              deleted == |m| && ws.rows == RemoveIndices(old(ws.rows), m)
  {
    var id := Strip(eventId);
    if id == [] {
      return 0;
    }
    var col := HeaderIndex(Headers(ws.rows), "event_id");
    if col.None? {
      return 0;
    }
    var deleteRows := CollectMatching(ws.rows, col.value, id);
    deleted := DeleteDescending(ws, deleteRows);
  }

  /** What the deletion leaves: the header row and every data row that does not match. */
  lemma DeletedExactly(rows: seq<Row>, col: nat, id: string)
    ensures var m := MatchingRows(rows, col, id);
            var kept := RemoveIndices(rows, m);
            |kept| == |rows| - |m|
            && (|rows| > 0 ==> |kept| > 0 && kept[0] == rows[0])
            && (forall i :: 1 <= i < |rows| && !IdMatches(rows[i], col, id) ==> rows[i] in kept)
            && (forall x :: x in kept ==> exists i :: 0 <= i < |rows| && (i == 0 || !IdMatches(rows[i], col, id)) && rows[i] == x)
  {
    var m := MatchingRows(rows, col, id);
    RemoveIndicesMembers(rows, m);
    RemoveIndicesLength(rows, m);
    if |rows| > 0 {
      RemoveIndicesFirst(rows, m);
    }
  }

  // ---------------------------------------------------------------------------
  // Removing an event id from the vault's JSON lists (`remove_event_from_vault`)
  // ---------------------------------------------------------------------------

  /** An element of a decoded JSON array: a string, or any other JSON value (its text). */
  datatype Item = Str(text: string) | NonStr(json: string)

  /** `[item for item in data if item != event_id]` */
  function WithoutId(items: seq<Item>, id: string): (r: seq<Item>)
    ensures |r| <= |items|
    ensures Str(id) !in r
    ensures forall x :: x in r <==> x in items && x != Str(id)
    ensures |r| == |items| <==> Str(id) !in items
  {
    if items == [] then []
    else (if items[0] == Str(id) then [] else [items[0]]) + WithoutId(items[1..], id)
  }

  /**
   * The new content of a vault row's `event_ids_json` cell, or None when the row is left
   * alone: the cell is missing, blank, not a JSON array (`decode` gives None for invalid JSON
   * and for JSON that is not a list), or its array does not hold the id.
   */
  function VaultRewrite(row: Row, col: nat, id: string,
                        decode: string -> Option<seq<Item>>, encode: seq<Item> -> string): (r: Option<string>)
    ensures r.Some? <==> col < |row| && Strip(row[col]) != [] && decode(row[col]).Some?
                         && Str(id) in decode(row[col]).value
    ensures r.Some? ==> r.value == encode(WithoutId(decode(row[col]).value, id))
  {
    if col >= |row| || Strip(row[col]) == [] then None
    else
      match decode(row[col])
      case None => None
      case Some(items) =>
        var filtered := WithoutId(items, id);
        if |filtered| == |items| then None else Some(encode(filtered))
  }

  /** A vault data row after the loop: its cell replaced when it is rewritten. */
  function RowAfter(row: Row, col: nat, id: string,
                    decode: string -> Option<seq<Item>>, encode: seq<Item> -> string): (r: Row)
    ensures |r| == |row|
    ensures forall i :: 0 <= i < |row| && i != col ==> r[i] == row[i]
  {
    match VaultRewrite(row, col, id, decode, encode)
    case None => row
    case Some(cell) => row[col := cell]
  }

  function VaultRowUpdate(col: nat, id: string,
                          decode: string -> Option<seq<Item>>, encode: seq<Item> -> string): Row -> Row {
    (row: Row) => RowAfter(row, col, id, decode, encode)
  }

  /** The vault grid after the loop: the header row as it was, every data row rewritten. */
  function VaultAfter(rows: seq<Row>, col: nat, id: string,
                      decode: string -> Option<seq<Item>>, encode: seq<Item> -> string): (r: seq<Row>)
    ensures |r| == |rows|
    ensures |rows| > 0 ==> r[0] == rows[0]
    ensures forall i :: 1 <= i < |rows| ==> r[i] == RowAfter(rows[i], col, id, decode, encode)
  {
    UpdatedBelow(rows, VaultRowUpdate(col, id, decode, encode), |rows|)
  }

  /** The number of data rows below `upto` that satisfy `p`. */
  function DataRowsWhere(rows: seq<Row>, p: Row -> bool, upto: nat): (n: nat)
    requires upto <= |rows|
    ensures n < upto || upto == 0
  {
    if upto <= 1 then 0
    else DataRowsWhere(rows, p, upto - 1) + (if p(rows[upto - 1]) then 1 else 0)
  }

  function IsRewritten(col: nat, id: string,
                       decode: string -> Option<seq<Item>>, encode: seq<Item> -> string): Row -> bool {
    (row: Row) => VaultRewrite(row, col, id, decode, encode).Some?
  }

  /** The number of data rows below `upto` that are rewritten. */
  function RewriteCount(rows: seq<Row>, col: nat, id: string,
                        decode: string -> Option<seq<Item>>, encode: seq<Item> -> string, upto: nat): (n: nat)
    requires upto <= |rows|
    ensures n < upto || upto == 0
  {
    DataRowsWhere(rows, IsRewritten(col, id, decode, encode), upto)
  }

  /**
   * `remove_event_from_vault`: for every data row whose `event_ids_json` array holds the id,
   * write back the array without it (`encode` stands for `json.dumps` with compact
   * separators); rows whose array is unchanged are not written. Returns how many rows were
   * written; a blank id or a sheet without an `event_ids_json` column writes nothing.
   */
  method RemoveEventFromVault(ws: Worksheet, eventId: string,
                              decode: string -> Option<seq<Item>>, encode: seq<Item> -> string)
    returns (updated: nat)
    modifies ws
    ensures var id := Strip(eventId);
            var col := HeaderIndex(Headers(old(ws.rows)), "event_ids_json");
            if id == [] || col.None? then updated == 0 && ws.rows == old(ws.rows)
            else
              ws.rows == VaultAfter(old(ws.rows), col.value, id, decode, encode)
              && updated == RewriteCount(old(ws.rows), col.value, id, decode, encode, |old(ws.rows)|)
  {
    var id := Strip(eventId);
    if id == [] {
      return 0;
    }
    var col := HeaderIndex(Headers(ws.rows), "event_ids_json");
    if col.None? {
      return 0;
    }
    updated := RewriteVaultRows(ws, col.value, id, decode, encode);
  }

  /** One turn of the loop: write the row's new cell when it has one; say whether it did. */
  method RewriteRow(ws: Worksheet, offset: nat, jsonIdx: nat, id: string,
                    decode: string -> Option<seq<Item>>, encode: seq<Item> -> string)
    returns (written: bool)
    requires offset < |ws.rows|
    modifies ws
    ensures written == VaultRewrite(old(ws.rows)[offset], jsonIdx, id, decode, encode).Some?
    ensures ws.rows == old(ws.rows)[offset := RowAfter(old(ws.rows)[offset], jsonIdx, id, decode, encode)]
  {
    var raw := ws.rows[offset];
    var change := VaultRewrite(raw, jsonIdx, id, decode, encode);
    if change.Some? {
      SetCellInside(raw, jsonIdx, change.value);
      ws.UpdateCell(offset + 1, jsonIdx + 1, change.value);
      written := true;
    } else {
      assert ws.rows[offset := raw] == ws.rows;
      written := false;
    }
  }

  /** Rewriting the next data row of the grid extends the rewritten part by that row. */
  lemma VaultStep(rows: seq<Row>, col: nat, id: string,
                  decode: string -> Option<seq<Item>>, encode: seq<Item> -> string,
                  offset: nat, before: seq<Row>, after: seq<Row>)
    requires 1 <= offset < |rows|
    requires before == UpdatedBelow(rows, VaultRowUpdate(col, id, decode, encode), offset)
    requires after == before[offset := RowAfter(before[offset], col, id, decode, encode)]
    ensures before[offset] == rows[offset]
    ensures after == UpdatedBelow(rows, VaultRowUpdate(col, id, decode, encode), offset + 1)
  {
    var f := VaultRowUpdate(col, id, decode, encode);
    UpdatedStep(rows, f, offset);
    assert f(rows[offset]) == RowAfter(rows[offset], col, id, decode, encode);
  }

  /** The count grows by one exactly when the next data row is rewritten. */
  lemma CountStep(rows: seq<Row>, col: nat, id: string,
                  decode: string -> Option<seq<Item>>, encode: seq<Item> -> string,
                  offset: nat, written: bool)
    requires 1 <= offset < |rows|
    requires written == VaultRewrite(rows[offset], col, id, decode, encode).Some?
    ensures RewriteCount(rows, col, id, decode, encode, offset + 1)
            == RewriteCount(rows, col, id, decode, encode, offset) + (if written then 1 else 0)
  {
  }

  /** The loop of `remove_event_from_vault` over the data rows. */
  method RewriteVaultRows(ws: Worksheet, jsonIdx: nat, id: string,
                          decode: string -> Option<seq<Item>>, encode: seq<Item> -> string)
    returns (updated: nat)
    modifies ws
    ensures ws.rows == VaultAfter(old(ws.rows), jsonIdx, id, decode, encode)
    ensures updated == RewriteCount(old(ws.rows), jsonIdx, id, decode, encode, |old(ws.rows)|)
  {
    var rows := ws.rows;
    updated := 0;
    if |rows| == 0 {
      return;
    }
    var offset := 1;
    while offset < |rows|
      invariant 1 <= offset <= |rows|
      invariant ws.rows == UpdatedBelow(rows, VaultRowUpdate(jsonIdx, id, decode, encode), offset)
      invariant updated == RewriteCount(rows, jsonIdx, id, decode, encode, offset)
    {
      ghost var before := ws.rows;
      var written := RewriteRow(ws, offset, jsonIdx, id, decode, encode);
      VaultStep(rows, jsonIdx, id, decode, encode, offset, before, ws.rows);
      CountStep(rows, jsonIdx, id, decode, encode, offset, written);
      if written {
        updated := updated + 1;
      }
      offset := offset + 1;
    }
    assert ws.rows == VaultAfter(rows, jsonIdx, id, decode, encode);
  }
}
