/** The activation mapping: the two dictionaries built from the lines
    `contexts -ACTIVATES- features` of the mapping file, and their flattening.
    A line arrives split around `-ACTIVATES-` and then on whitespace, so a
    row is a sequence of sides and each side a sequence of tokens; a token
    may join several names with '-'. */
module Mapping {
  import opened Strings
  import opened Errors

  type Dict = map<string, seq<string>>

  /** `d.update({k: v for k in keys})`: each key now maps to the whole list v,
      replacing whatever it mapped to before. */
  function UpdateAll(d: Dict, keys: seq<string>, v: seq<string>): (r: Dict)
    ensures r.Keys == d.Keys + set t | t in keys
    ensures forall t :: t in keys ==> r[t] == v
    ensures forall t :: t in d && t !in keys ==> r[t] == d[t]
  {
    d + map k | k in keys :: v
  }

  lemma UpdateAllAt(d: Dict, keys: seq<string>, v: seq<string>, t: string)
    ensures t in UpdateAll(d, keys, v) <==> t in keys || t in d
    ensures t in UpdateAll(d, keys, v) ==> UpdateAll(d, keys, v)[t] == if t in keys then v else d[t]
  {
  }

  /** Every hyphen part of every token is a declared node name. */
  predicate Defined(tokens: seq<string>, nodes: set<string>)
  {
    forall t, e :: t in tokens && e in Split(t, '-') ==> e in nodes
  }

  function FirstUndefinedPart(parts: seq<string>, nodes: set<string>): (r: Option<string>)
    ensures r.None? <==> forall e :: e in parts ==> e in nodes
    ensures r.Some? ==> r.value in parts && r.value !in nodes
  {
    if parts == [] then None
    else if parts[0] !in nodes then Some(parts[0])
    else FirstUndefinedPart(parts[1..], nodes)
  }

  /** The name `checkMappingDefinitions` reports: the first hyphen part,
      token by token, that is not a declared node; None when there is none. */
  function FirstUndefined(tokens: seq<string>, nodes: set<string>): (r: Option<string>)
    ensures r.None? <==> Defined(tokens, nodes)
    ensures r.Some? ==> r.value !in nodes && exists t :: t in tokens && r.value in Split(t, '-')
  {
    if tokens == [] then None
    else match FirstUndefinedPart(Split(tokens[0], '-'), nodes)
      case Some(e) => Some(e)
      case None =>
        assert forall t :: t in tokens <==> t == tokens[0] || t in tokens[1..];
        FirstUndefined(tokens[1..], nodes)
  }

  /** The context-to-features and feature-to-contexts dictionaries. */
  datatype Dicts = Dicts(context: Dict, feature: Dict)

  /** One mapping line: both sides are checked against the declared names
      (context side first) before either dictionary changes; then each
      context token maps to the whole feature list and each feature token
      to the whole context list. */
  function ApplyRow(nodes: set<string>, ds: Dicts, row: seq<seq<string>>): (r: Result<Dicts>)
    ensures r.Ok? <==> |row| == 2 && Defined(row[0], nodes) && Defined(row[1], nodes)
    ensures r.Ok? ==> ds.context.Keys <= r.value.context.Keys && ds.feature.Keys <= r.value.feature.Keys
  {
    if |row| != 2 then Err(BadMappingLine(row))
    else match FirstUndefined(row[0], nodes)
      case Some(e) => Err(Undefined("context", e))
      case None =>
        match FirstUndefined(row[1], nodes)
        case Some(e) => Err(Undefined("feature", e))
        case None => Ok(Dicts(UpdateAll(ds.context, row[0], row[1]), UpdateAll(ds.feature, row[1], row[0])))
  }

  /** The lines of a mapping file in order; the first bad line aborts. */
  function ApplyRows(nodes: set<string>, ds: Dicts, rows: seq<seq<seq<string>>>): (r: Result<Dicts>)
    ensures r.Ok? ==> ds.context.Keys <= r.value.context.Keys && ds.feature.Keys <= r.value.feature.Keys
  {
    if rows == [] then Ok(ds)
    else match ApplyRows(nodes, ds, rows[..|rows| - 1])
      case Err(e) => Err(e)
      case Ok(ds') => ApplyRow(nodes, ds', rows[|rows| - 1])
  }

  /** Once a prefix of the file has failed, the file fails with the same error. */
  lemma {:induction false} ApplyRowsErrStops(nodes: set<string>, ds: Dicts, rows: seq<seq<seq<string>>>, i: nat)
    requires i <= |rows|
    requires ApplyRows(nodes, ds, rows[..i]).Err?
    ensures ApplyRows(nodes, ds, rows) == ApplyRows(nodes, ds, rows[..i])
    decreases |rows| - i
  {
    if i < |rows| {
      assert rows[..i + 1][..i] == rows[..i];
      ApplyRowsErrStops(nodes, ds, rows, i + 1);
    } else {
      assert rows[..i] == rows;
    }
  }

  /** A row the source accepts. */
  predicate GoodRow(nodes: set<string>, row: seq<seq<string>>)
  {
    |row| == 2 && Defined(row[0], nodes) && Defined(row[1], nodes)
  }

  /** A mapping file is accepted exactly when every line has two sides whose
      names are all declared. */
  lemma {:induction false} ApplyRowsOk(nodes: set<string>, ds: Dicts, rows: seq<seq<seq<string>>>)
    ensures ApplyRows(nodes, ds, rows).Ok? <==> forall i :: 0 <= i < |rows| ==> GoodRow(nodes, rows[i])
  {
    if rows != [] {
      var front := rows[..|rows| - 1];
      ApplyRowsOk(nodes, ds, front);
      assert forall i :: 0 <= i < |front| ==> front[i] == rows[i];
    }
  }

  /** Dictionary 0 is keyed by context tokens, dictionary 1 by feature tokens. */
  function DictOf(ds: Dicts, side: nat): Dict
  {
    if side == 0 then ds.context else ds.feature
  }

  /** The last line that lists t on the given side (0 contexts, 1 features), or -1. */
  function LastListing(rows: seq<seq<seq<string>>>, side: nat, t: string): (r: int)
    requires side < 2 && forall j :: 0 <= j < |rows| ==> |rows[j]| == 2
    ensures -1 <= r < |rows|
    ensures r >= 0 ==> t in rows[r][side] && forall j :: r < j < |rows| ==> t !in rows[j][side]
    ensures r == -1 ==> forall j :: 0 <= j < |rows| ==> t !in rows[j][side]
  {
    if rows == [] then -1
    else if t in rows[|rows| - 1][side] then |rows| - 1
    else LastListing(rows[..|rows| - 1], side, t)
  }

  /** The dictionary of one side after an accepted file: the last line
      updates the dictionary the earlier lines built. */
  lemma ApplyRowsStep(nodes: set<string>, ds: Dicts, rows: seq<seq<seq<string>>>, side: nat)
    requires side < 2 && rows != [] && |rows[|rows| - 1]| == 2
    requires ApplyRows(nodes, ds, rows).Ok?
    ensures ApplyRows(nodes, ds, rows[..|rows| - 1]).Ok?
    ensures DictOf(ApplyRows(nodes, ds, rows).value, side)
         == UpdateAll(DictOf(ApplyRows(nodes, ds, rows[..|rows| - 1]).value, side),
                      rows[|rows| - 1][side], rows[|rows| - 1][1 - side])
  {
    var front := rows[..|rows| - 1];
    var last := rows[|rows| - 1];
    assert ApplyRows(nodes, ds, rows) == ApplyRow(nodes, ApplyRows(nodes, ds, front).value, last);
    ApplyRowValue(nodes, ApplyRows(nodes, ds, front).value, last);
  }

  /** An accepted line updates both dictionaries. */
  lemma ApplyRowValue(nodes: set<string>, ds: Dicts, row: seq<seq<string>>)
    requires ApplyRow(nodes, ds, row).Ok?
    ensures |row| == 2
    ensures ApplyRow(nodes, ds, row).value
         == Dicts(UpdateAll(ds.context, row[0], row[1]), UpdateAll(ds.feature, row[1], row[0]))
  {
  }

  /** After an accepted file, a token maps to the other side of the LAST line
      that lists it (later lines replace earlier ones, they do not merge); a
      token no line lists keeps the entry it had before. */
  lemma {:induction false} LastRowWins(nodes: set<string>, ds: Dicts, rows: seq<seq<seq<string>>>, side: nat, t: string)
    requires side < 2 && forall j :: 0 <= j < |rows| ==> |rows[j]| == 2
    requires ApplyRows(nodes, ds, rows).Ok?
    ensures var r := DictOf(ApplyRows(nodes, ds, rows).value, side);
            var i := LastListing(rows, side, t);
            (t in r <==> i >= 0 || t in DictOf(ds, side))
            && (t in r ==> r[t] == if i >= 0 then rows[i][1 - side] else DictOf(ds, side)[t])
  {
    if rows != [] {
      var front := rows[..|rows| - 1];
      assert forall j :: 0 <= j < |front| ==> front[j] == rows[j];
      var last := rows[|rows| - 1];
      ApplyRowsStep(nodes, ds, rows, side);
      LastRowWins(nodes, ds, front, side, t);
      var before := ApplyRows(nodes, ds, front).value;
      UpdateAllAt(DictOf(before, side), last[side], last[1 - side], t);
      if t in last[side] {
        assert LastListing(rows, side, t) == |rows| - 1;
      } else {
        assert LastListing(rows, side, t) == LastListing(front, side, t);
      }
    }
  }

  // ---- flattenDict ----

  /** `result[s].append(v)`, creating the list first when s is new. */
  function Append(r: Dict, s: string, v: string): Dict
  {
    r[s := (if s in r then r[s] else []) + [v]]
  }

  /** The innermost loop: v appended under each part of a key, in order. */
  function AddParts(r: Dict, parts: seq<string>, v: string): Dict
  {
    if parts == [] then r
    else Append(AddParts(r, parts[..|parts| - 1], v), parts[|parts| - 1], v)
  }

  /** The middle loop: each value of one key, in order, under all its parts. */
  function AddValues(r: Dict, key: string, vs: seq<string>): Dict
  {
    if vs == [] then r
    else AddParts(AddValues(r, key, vs[..|vs| - 1]), Split(key, '-'), vs[|vs| - 1])
  }

  /** The outer loop over the keys of d, taken in the order ks. */
  function FlattenKeys(d: Dict, ks: seq<string>): Dict
    requires forall k :: k in ks ==> k in d
  {
    if ks == [] then map[]
    else AddValues(FlattenKeys(d, ks[..|ks| - 1]), ks[|ks| - 1], d[ks[|ks| - 1]])
  }

  /** What `flattenDict(d)` promises: s is a key of the result exactly when it
      is a hyphen part of a key of d with a non-empty value list, and v is
      listed under s exactly when v is listed under such a key. */
  ghost predicate Flattens(d: Dict, r: Dict)
  {
    (forall s :: s in r <==> exists k :: k in d && d[k] != [] && s in Split(k, '-'))
    && (forall s, v :: s in r ==> (v in r[s] <==> exists k :: k in d && s in Split(k, '-') && v in d[k]))
  }

  lemma {:induction false} AddPartsAt(r: Dict, parts: seq<string>, v: string, s: string, w: string)
    ensures s in AddParts(r, parts, v) <==> s in r || s in parts
    ensures s in AddParts(r, parts, v) ==>
      (w in AddParts(r, parts, v)[s] <==> (s in r && w in r[s]) || (s in parts && w == v))
  {
    if parts != [] {
      var front := parts[..|parts| - 1];
      AddPartsAt(r, front, v, s, w);
      assert parts == front + [parts[|parts| - 1]];
    }
  }

  lemma {:induction false} AddValuesAt(r: Dict, key: string, vs: seq<string>, s: string, w: string)
    ensures s in AddValues(r, key, vs) <==> s in r || (vs != [] && s in Split(key, '-'))
    ensures s in AddValues(r, key, vs) ==>
      (w in AddValues(r, key, vs)[s] <==> (s in r && w in r[s]) || (s in Split(key, '-') && w in vs))
  {
    if vs != [] {
      var front, last := vs[..|vs| - 1], vs[|vs| - 1];
      var mid := AddValues(r, key, front);
      AddValuesAt(r, key, front, s, w);
      AddPartsAt(mid, Split(key, '-'), last, s, w);
      assert AddValues(r, key, vs) == AddParts(mid, Split(key, '-'), last);
      assert w in vs <==> w in front || w == last by {
        assert vs == front + [last];
      }
    }
  }

  /** Flattening the keys ks collects, under each hyphen part, the values of
      the keys of ks that have that part. */
  lemma {:induction false} FlattenKeysAt(d: Dict, ks: seq<string>, s: string, v: string)
    requires forall k :: k in ks ==> k in d
    ensures s in FlattenKeys(d, ks) <==> exists k :: k in ks && d[k] != [] && s in Split(k, '-')
    ensures s in FlattenKeys(d, ks) ==>
      (v in FlattenKeys(d, ks)[s] <==> exists k :: k in ks && s in Split(k, '-') && v in d[k])
  {
    if ks != [] {
      var front := ks[..|ks| - 1];
      var key := ks[|ks| - 1];
      assert forall k :: k in ks <==> k in front || k == key by {
        assert ks == front + [key];
      }
      FlattenKeysAt(d, front, s, v);
      AddValuesAt(FlattenKeys(d, front), key, d[key], s, v);
    }
  }

  /** Flattening in any order of all the keys of d is what `flattenDict` promises. */
  lemma FlattenKeysFlattens(d: Dict, ks: seq<string>)
    requires forall k :: k in ks <==> k in d
    ensures Flattens(d, FlattenKeys(d, ks))
  {
    var r := FlattenKeys(d, ks);
    forall s
      ensures s in r <==> exists k :: k in d && d[k] != [] && s in Split(k, '-')
    {
      FlattenKeysAt(d, ks, s, "");
    }
    forall s, v | s in r
      ensures v in r[s] <==> exists k :: k in d && s in Split(k, '-') && v in d[k]
    {
      FlattenKeysAt(d, ks, s, v);
    }
  }
}
