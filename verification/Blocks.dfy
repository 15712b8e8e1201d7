/**
 * RESTRICT blocks on the wire: the JSON object of a block, the parser that accepts
 * exactly the canonical serialization of what it returns, and minting.
 */
module Blocks {
  import opened Wrappers
  import opened Credential
  import opened Jcs
  import opened Canonicalizer
  import Uri

  type Fields = map<string, Value>

  // ---- caveats to JSON ----

  function StrList(ss: seq<string>): Value {
    Arr(seq(|ss|, i requires 0 <= i < |ss| => Str(ss[i])))
  }

  function ListValue(l: Option<seq<string>>): Value {
    if l.None? then Null else StrList(l.value)
  }

  function WindowFields(w: TimeWindow): Fields { map["start" := Num(w.start), "end" := Num(w.end)] }

  function WindowValue(w: Option<TimeWindow>): Value {
    if w.None? then Null else Obj(WindowFields(w.value))
  }

  /** The type member of a caveat. */
  function Kind(c: Constraint): string {
    match c
    case Within(_) => "time_window"
    case Budget(_, _, _, _, _) => "budget"
    case ParamLimit(_, _) => "param_limit"
    case ParameterSchema(_) => "parameter_schema"
    case ResourceRestrict(_) => "resource_restrict"
    case ActionRestrict(_) => "action_restrict"
    case MethodRestrict(_) => "method_restrict"
    case MaxCalls(_, _) => "max_calls"
    case DelegationDepth(_) => "delegation_depth"
    case Raw(t, _) => t
  }

  const KINDS: set<string> :=
    {"time_window", "budget", "param_limit", "parameter_schema", "resource_restrict", "action_restrict",
     "method_restrict", "max_calls", "delegation_depth"}

  /** The members of a modelled caveat other than its type. */
  function Body(c: Constraint): Fields
    requires !c.Raw?
  {
    match c
    case Within(w) => WindowFields(w)
    case Budget(d, l, w, s, m) =>
      map["dim" := Str(d), "limit" := Num(l), "window" := WindowValue(w), "scope" := Str(s), "meter" := Str(m)]
    case ParamLimit(f, m) => map["field" := Str(f), "max" := Num(m)]
    case ParameterSchema(s) => map["schema" := if ValueOf(s).Some? then ValueOf(s).value else Null]
    case ResourceRestrict(r) => map["resource" := Str(r)]
    case ActionRestrict(l) => map["actions" := ListValue(l)]
    case MethodRestrict(l) => map["methods" := ListValue(l)]
    case MaxCalls(l, w) => map["limit" := Num(l), "window" := WindowValue(w)]
    case DelegationDepth(m) => map["max" := Num(m)]
  }

  /** Whether the raw payload of a caveat, if it has one, is JSON of the profile. */
  predicate Serializable(c: Constraint) {
    match c
    case ParameterSchema(s) => ValueOf(s).Some?
    case Raw(_, raw) => ValueOf(raw).Some?
    case _ => true
  }

  function ConstraintFields(c: Constraint): Fields
    requires !c.Raw?
  {
    Body(c)["type" := Str(Kind(c))]
  }

  function ConstraintValue(c: Constraint): Value
    requires Serializable(c)
  {
    if c.Raw? then ValueOf(c.raw).value else Obj(ConstraintFields(c))
  }

  // ---- caveats from JSON ----

  /** A string member; missing and null leave the zero value. */
  function StrAt(m: Fields, k: string): Option<string> {
    if k !in m || m[k].Null? then Some("") else if m[k].Str? then Some(m[k].s) else None
  }

  function NumAt(m: Fields, k: string): Option<int> {
    if k !in m || m[k].Null? then Some(0) else if m[k].Num? then Some(m[k].n) else None
  }

  function StrsOf(vs: seq<Value>): Option<seq<string>> {
    if forall i | 0 <= i < |vs| :: vs[i].Str? || vs[i].Null? then
      Some(seq(|vs|, i requires 0 <= i < |vs| => if vs[i].Str? then vs[i].s else ""))
    else None
  }

  /** A list of strings; missing and null give no list at all. */
  function ListAt(m: Fields, k: string): Option<Option<seq<string>>> {
    if k !in m || m[k].Null? then Some(None)
    else if m[k].Arr? && StrsOf(m[k].items).Some? then Some(StrsOf(m[k].items))
    else None
  }

  function WindowOf(m: Fields): Option<TimeWindow> {
    if NumAt(m, "start").Some? && NumAt(m, "end").Some? then
      Some(TimeWindow(NumAt(m, "start").value, NumAt(m, "end").value))
    else None
  }

  function WindowAt(m: Fields, k: string): Option<Option<TimeWindow>> {
    if k !in m || m[k].Null? then Some(None)
    else if m[k].Obj? && WindowOf(m[k].fields).Some? then Some(WindowOf(m[k].fields))
    else None
  }

  /** The caveat of a known kind with the given members; None when a member has the wrong type. */
  ghost function DecodeKnown(kind: string, m: Fields): Option<Constraint>
    requires kind in KINDS
  {
    if kind == "time_window" then
      (match WindowOf(m) case Some(w) => Some(Within(w)) case None => None)
    else if kind == "budget" then
      (match (StrAt(m, "dim"), NumAt(m, "limit"), WindowAt(m, "window"), StrAt(m, "scope"), StrAt(m, "meter"))
       case (Some(d), Some(l), Some(w), Some(s), Some(r)) => Some(Budget(d, l, w, s, r))
       case _ => None)
    else if kind == "param_limit" then
      (match (StrAt(m, "field"), NumAt(m, "max")) case (Some(f), Some(x)) => Some(ParamLimit(f, x)) case _ => None)
    else if kind == "parameter_schema" then
      Some(ParameterSchema(if "schema" in m then CanonicalBytes(m["schema"]) else []))
    else if kind == "resource_restrict" then
      (match StrAt(m, "resource") case Some(r) => Some(ResourceRestrict(r)) case None => None)
    else if kind == "action_restrict" then
      (match ListAt(m, "actions") case Some(l) => Some(ActionRestrict(l)) case None => None)
    else if kind == "method_restrict" then
      (match ListAt(m, "methods") case Some(l) => Some(MethodRestrict(l)) case None => None)
    else if kind == "max_calls" then
      (match (NumAt(m, "limit"), WindowAt(m, "window")) case (Some(l), Some(w)) => Some(MaxCalls(l, w)) case _ => None)
    else
      (match NumAt(m, "max") case Some(x) => Some(DelegationDepth(x)) case None => None)
  }

  /** The decoder matches member names up to case. */
  predicate IsTypeKey(k: string) { Uri.Lower(k) == "type" }

  /**
   * The type of a caveat, from the members whose name is "type" up to case, in the order in which canonical
   * text lists them: the last that is not null counts, and all of them have to be text or null.
   */
  ghost function TypeName(m: Fields): Option<string> { LastType(m, SortedKeys(m), "") }

  ghost function LastType(m: Fields, ks: seq<string>, last: string): Option<string> {
    if ks == [] then Some(last)
    else if !IsTypeKey(ks[0]) || ks[0] !in m || m[ks[0]].Null? then LastType(m, ks[1..], last)
    else if m[ks[0]].Str? then LastType(m, ks[1..], m[ks[0]].s)
    else None
  }

  lemma {:induction false} SoleType(m: Fields, ks: seq<string>, last: string, t: string)
    requires "type" in m && m["type"] == Str(t)
    requires forall k | k in ks && IsTypeKey(k) :: k == "type"
    ensures LastType(m, ks, last) == Some(if "type" in ks then t else last)
  {
    hide IsTypeKey;
    TypeIsTypeKey();
    if ks != [] {
      var next := if ks[0] == "type" then t else last;
      SoleType(m, ks[1..], next, t);
      assert "type" in ks <==> ks[0] == "type" || "type" in ks[1..];
    }
  }

  lemma TypeIsTypeKey()
    ensures IsTypeKey("type")
  {}

  /** Without other spellings of it, the type is what the member "type" says. */
  lemma TypeAt(m: Fields, t: string)
    requires "type" in m && m["type"] == Str(t) && forall k | k in m && IsTypeKey(k) :: k == "type"
    ensures TypeName(m) == Some(t)
  {
    hide IsTypeKey, SortedKeys;
    SoleType(m, SortedKeys(m), "", t);
  }

  /** One caveat; an unknown type is kept as it came, a missing one is an error. */
  ghost function DecodeConstraint(v: Value): Option<Constraint> {
    if !v.Obj? then None
    else
      match TypeName(v.fields)
      case None => None
      case Some(t) =>
        if t == "" then None
        else if t in KINDS then DecodeKnown(t, v.fields)
        else Some(Raw(t, CanonicalBytes(v)))
  }

  /** A caveat as a decoder may have made it: its payload is JSON, and says the type the caveat has. */
  ghost predicate Readable(c: Constraint) {
    match c
    case ParameterSchema(s) => ValueOf(s).Some?
    case Raw(t, raw) =>
      && t != "" && t !in KINDS && ValueOf(raw).Some?
      && ValueOf(raw).value.Obj? && TypeName(ValueOf(raw).value.fields) == Some(t)
    case _ => true
  }

  /** The caveat with its payload, if it has one, in canonical form. */
  ghost function Settled(c: Constraint): Constraint
    requires Serializable(c)
  {
    match c
    case ParameterSchema(s) => ParameterSchema(CanonicalBytes(ValueOf(s).value))
    case Raw(t, raw) => Raw(t, CanonicalBytes(ValueOf(raw).value))
    case _ => c
  }

  /** Payloads that are their own canonical form; what a parsed caveat always carries. */
  ghost predicate Faithful(c: Constraint) { Readable(c) && Settled(c) == c }

  lemma StrsOfList(ss: seq<string>)
    ensures StrList(ss).Arr? && StrsOf(StrList(ss).items) == Some(ss)
  {
    assert StrsOf(StrList(ss).items).value == ss;
  }

  lemma ListBack(m: Fields, k: string, l: Option<seq<string>>)
    requires k in m && m[k] == ListValue(l)
    ensures ListAt(m, k) == Some(l)
  {
    if l.Some? { StrsOfList(l.value); }
  }

  lemma WindowFieldsBack(m: Fields, w: TimeWindow)
    requires "start" in m && m["start"] == Num(w.start) && "end" in m && m["end"] == Num(w.end)
    ensures WindowOf(m) == Some(w)
  {}

  lemma WindowBack(m: Fields, k: string, w: Option<TimeWindow>)
    requires k in m && m[k] == WindowValue(w)
    ensures WindowAt(m, k) == Some(w)
  {
    if w.Some? { WindowFieldsBack(WindowFields(w.value), w.value); }
  }

  /** Adding the type keeps every other member, none of which is called "type" in any spelling. */
  lemma TypedBody(c: Constraint, k: string)
    requires !c.Raw? && k in Body(c)
    ensures |k| != 4 && ConstraintFields(c)[k] == Body(c)[k]
  {
    assert |"limit"| == |"scope"| == |"meter"| == |"field"| == |"start"| == 5 && |"type"| == 4;
    assert |"dim"| == |"max"| == |"end"| == 3 && |"schema"| == |"window"| == 6;
    assert |"actions"| == |"methods"| == 7 && |"resource"| == 8;
  }

  lemma KindsKnown(c: Constraint)
    requires !c.Raw?
    ensures Kind(c) in KINDS && Kind(c) != ""
  {}

  ghost predicate Carries(m: Fields, body: Fields) {
    forall k | k in body :: k in m && m[k] == body[k]
  }

  lemma BudgetBack(m: Fields, c: Constraint)
    requires c.Budget? && Carries(m, Body(c))
    ensures DecodeKnown("budget", m) == Some(c)
  {
    hide WindowAt, WindowValue;
    var b := Body(c);
    assert |"limit"| == |"scope"| == |"meter"| == 5 && |"dim"| == 3 && |"window"| == 6;
    assert "limit"[0] != "scope"[0] && "limit"[0] != "meter"[0] && "meter"[0] != "scope"[0];
    assert "dim" in b && "limit" in b && "window" in b && "scope" in b && "meter" in b;
    assert m["dim"] == Str(c.dim) && m["limit"] == Num(c.limit);
    assert m["scope"] == Str(c.scope) && m["meter"] == Str(c.meter);
    WindowBack(m, "window", c.window);
  }

  lemma MaxCallsBack(m: Fields, c: Constraint)
    requires c.MaxCalls? && Carries(m, Body(c))
    ensures DecodeKnown("max_calls", m) == Some(c)
  {
    hide WindowAt, WindowValue;
    var b := Body(c);
    assert |"limit"| == 5 && |"window"| == 6;
    assert "limit" in b && "window" in b;
    assert m["limit"] == Num(c.limit);
    WindowBack(m, "window", c.window);
  }

  lemma WithinBack(m: Fields, c: Constraint)
    requires c.Within? && Carries(m, Body(c))
    ensures DecodeKnown("time_window", m) == Some(c)
  {
    var b := Body(c);
    assert "start" in b && "end" in b;
    WindowFieldsBack(m, c.interval);
  }

  lemma ParamLimitBack(m: Fields, c: Constraint)
    requires c.ParamLimit? && Carries(m, Body(c))
    ensures DecodeKnown("param_limit", m) == Some(c)
  {
    var b := Body(c);
    assert |"field"| == 5 && |"max"| == 3;
    assert "field" in b && "max" in b;
    assert m["field"] == Str(c.field) && m["max"] == Num(c.max);
  }

  /** A decoder that is handed the members of a caveat gives the caveat back. */
  lemma KnownBack(m: Fields, c: Constraint)
    requires !c.Raw? && Faithful(c) && Carries(m, Body(c))
    ensures Kind(c) in KINDS && DecodeKnown(Kind(c), m) == Some(c)
  {
    hide ListAt, ListValue, Carries, CanonicalBytes, ValueOf;
    KindsKnown(c);
    match c
    case Within(_) => WithinBack(m, c);
    case Budget(_, _, _, _, _) => BudgetBack(m, c);
    case ParamLimit(_, _) => ParamLimitBack(m, c);
    case MaxCalls(_, _) => MaxCallsBack(m, c);
    case ParameterSchema(_) => Carried(m, Body(c), "schema");
    case ResourceRestrict(_) => Carried(m, Body(c), "resource");
    case ActionRestrict(l) =>
      Carried(m, Body(c), "actions");
      ListBack(m, "actions", l);
    case MethodRestrict(l) =>
      Carried(m, Body(c), "methods");
      ListBack(m, "methods", l);
    case DelegationDepth(_) => Carried(m, Body(c), "max");
  }

  lemma Carried(m: Fields, body: Fields, k: string)
    requires Carries(m, body) && k in body
    ensures k in m && m[k] == body[k]
  {}

  /** Serialized and decoded again, a caveat with faithful payloads comes back. */
  lemma ConstraintBack(c: Constraint)
    requires Faithful(c)
    ensures Serializable(c) && DecodeConstraint(ConstraintValue(c)) == Some(c)
  {
    hide DecodeKnown, CanonicalBytes, ValueOf, Body, Kind, TypeName, IsTypeKey;
    if !c.Raw? {
      TypedAsKnown(c);
      KnownBack(ConstraintFields(c), c);
      KindsKnown(c);
    }
  }

  lemma TypedAsKnown(c: Constraint)
    requires !c.Raw?
    ensures Carries(ConstraintFields(c), Body(c)) && TypeName(ConstraintFields(c)) == Some(Kind(c))
  {
    hide Body, Kind, TypeName;
    var m := ConstraintFields(c);
    forall k | k in Body(c) ensures k in m && m[k] == Body(c)[k] && |k| != 4 { TypedBody(c, k); }
    assert forall k | k in m :: k in Body(c) || k == "type";
    TypeAt(m, Kind(c));
  }

  lemma EmptyIsNoDocument()
    ensures ValueOf([]) == None
  {}

  /** Serialized, a caveat and its settled form are the same; and the settled form is faithful. */
  lemma SettledIsFaithful(c: Constraint)
    requires Readable(c)
    ensures Serializable(c) && Faithful(Settled(c)) && ConstraintValue(Settled(c)) == ConstraintValue(c)
  {
    hide CanonicalBytes, ValueOf, TypeName;
    match c
    case ParameterSchema(s) => CanonicalDenotes(ValueOf(s).value);
    case Raw(_, raw) => CanonicalDenotes(ValueOf(raw).value);
    case _ =>
  }

  /** What the decoder returns carries faithful payloads, unless a schema was missing. */
  lemma DecodedIsFaithful(v: Value)
    requires DecodeConstraint(v).Some? && Serializable(DecodeConstraint(v).value)
    ensures Faithful(DecodeConstraint(v).value)
  {
    hide CanonicalBytes, ValueOf, WindowAt, WindowOf, ListAt, TypeName;
    CanonicalDenotes(v);
    EmptyIsNoDocument();
    if v.Obj? && "schema" in v.fields { CanonicalDenotes(v.fields["schema"]); }
  }

  // ---- blocks ----

  function CaveatsValue(cs: seq<Constraint>): Value
    requires forall c | c in cs :: Serializable(c)
  {
    Arr(seq(|cs|, i requires 0 <= i < |cs| => ConstraintValue(cs[i])))
  }

  predicate SerializableBlock(b: RestrictBlock) { forall c | c in b.cav :: Serializable(c) }

  /** The members of a block; crit is left out when empty. */
  function BlockFields(b: RestrictBlock): Fields
    requires SerializableBlock(b)
  {
    var m := map["typ" := Str(b.typ), "iss" := Str(b.iss), "aud" := Str(b.aud), "prf" := Str(b.prf),
                 "nbf" := Num(b.nbf), "exp" := Num(b.exp), "dl" := Num(b.dl), "cav" := CaveatsValue(b.cav),
                 "sig" := Str(b.sig)];
    if b.crit == [] then m else m["crit" := StrList(b.crit)]
  }

  /** The canonical serialization of a block, over which its CID is computed. */
  ghost function BlockBytes(b: RestrictBlock): Option<Bytes> {
    if SerializableBlock(b) then Some(CanonicalBytes(Obj(BlockFields(b)))) else None
  }

  ghost function CaveatsAt(m: Fields): Option<seq<Constraint>> {
    if "cav" !in m || m["cav"].Null? then Some([])
    else if m["cav"].Arr? then
      var vs := m["cav"].items;
      if forall i | 0 <= i < |vs| :: DecodeConstraint(vs[i]).Some? then
        Some(seq(|vs|, i requires 0 <= i < |vs| && DecodeConstraint(vs[i]).Some? => DecodeConstraint(vs[i]).value))
      else None
    else None
  }

  /** The lenient decoder: missing members are zero values and unknown ones are ignored. */
  ghost function DecodeBlock(v: Value): Option<RestrictBlock> {
    if !v.Obj? then None
    else
      var m := v.fields;
      var typ, iss, aud := StrAt(m, "typ"), StrAt(m, "iss"), StrAt(m, "aud");
      var prf, sig := StrAt(m, "prf"), StrAt(m, "sig");
      var nbf, exp, dl := NumAt(m, "nbf"), NumAt(m, "exp"), NumAt(m, "dl");
      var cav, crit := CaveatsAt(m), ListAt(m, "crit");
      if typ.Some? && iss.Some? && aud.Some? && prf.Some? && sig.Some? && nbf.Some? && exp.Some? && dl.Some?
         && cav.Some? && crit.Some?
      then
        Some(RestrictBlock(typ.value, iss.value, aud.value, prf.value, nbf.value, exp.value, dl.value, cav.value,
                           if crit.value.Some? then crit.value.value else [], sig.value))
      else None
  }

  predicate Complete(b: RestrictBlock) {
    && b.typ == RESTRICT_BLOCK_TYP
    && b.iss != "" && b.aud != "" && b.prf != "" && b.sig != ""
    && b.dl >= 0
  }

  /** The parser: decode, check the members, and insist on the canonical octets. */
  ghost function ParseRestrictBlock(raw: Bytes): Option<RestrictBlock> {
    match ValueOf(raw)
    case None => None
    case Some(v) =>
      match DecodeBlock(v)
      case None => None
      case Some(b) => if Complete(b) && BlockBytes(b) == Some(raw) then Some(b) else None
  }

  /** The block as it is stored: with canonical payloads. */
  ghost function SettledBlock(b: RestrictBlock): RestrictBlock
    requires SerializableBlock(b)
  {
    b.(cav := seq(|b.cav|, i requires 0 <= i < |b.cav| => Settled(b.cav[i])))
  }

  /** A block and its settled form are one object on the wire. */
  lemma SettledIsSame(b: RestrictBlock)
    requires forall c | c in b.cav :: Readable(c)
    ensures SerializableBlock(b) && SerializableBlock(SettledBlock(b))
    ensures BlockFields(SettledBlock(b)) == BlockFields(b)
    ensures forall c | c in SettledBlock(b).cav :: Faithful(c)
  {
    hide Readable, Serializable, Settled, Faithful, ConstraintValue;
    forall c | c in b.cav ensures Serializable(c) { SettledIsFaithful(c); }
    var s := SettledBlock(b);
    forall i | 0 <= i < |b.cav|
      ensures Serializable(s.cav[i]) && Faithful(s.cav[i]) && ConstraintValue(s.cav[i]) == ConstraintValue(b.cav[i])
    {
      SettledIsFaithful(b.cav[i]);
      FaithfulIsSerializable(s.cav[i]);
    }
    assert CaveatsValue(s.cav) == CaveatsValue(b.cav);
  }

  lemma FaithfulIsSerializable(c: Constraint)
    ensures Faithful(c) ==> Readable(c) && Serializable(c)
  {}

  /** Faithful blocks are stored as they are. */
  lemma FaithfulIsSettled(b: RestrictBlock)
    requires SerializableBlock(b) && forall c | c in b.cav :: Readable(c)
    ensures SettledBlock(b) == b <==> forall c | c in b.cav :: Faithful(c)
  {
    hide Readable, Serializable, Settled;
    var s := SettledBlock(b);
    if s == b {
      forall c | c in b.cav ensures Faithful(c) {
        var i :| 0 <= i < |b.cav| && b.cav[i] == c;
        assert s.cav[i] == Settled(c);
      }
    }
    if forall c | c in b.cav :: Faithful(c) {
      forall i | 0 <= i < |b.cav| ensures s.cav[i] == b.cav[i] {
        assert b.cav[i] in b.cav;
      }
      assert s.cav == b.cav;
    }
  }

  lemma CaveatsBack(m: Fields, cs: seq<Constraint>)
    requires forall c | c in cs :: Faithful(c)
    requires forall c | c in cs :: Serializable(c)
    requires "cav" in m && m["cav"] == CaveatsValue(cs)
    ensures CaveatsAt(m) == Some(cs)
  {
    hide Faithful, Serializable, ConstraintValue, DecodeConstraint;
    var vs := CaveatsValue(cs).items;
    forall i | 0 <= i < |cs| ensures DecodeConstraint(vs[i]) == Some(cs[i]) { ConstraintBack(cs[i]); }
    assert CaveatsAt(m).value == cs;
  }

  lemma BlockFieldsAt(b: RestrictBlock)
    requires SerializableBlock(b)
    ensures var m := BlockFields(b);
            && StrAt(m, "typ") == Some(b.typ) && StrAt(m, "iss") == Some(b.iss) && StrAt(m, "aud") == Some(b.aud)
            && StrAt(m, "prf") == Some(b.prf) && StrAt(m, "sig") == Some(b.sig)
            && NumAt(m, "nbf") == Some(b.nbf) && NumAt(m, "exp") == Some(b.exp) && NumAt(m, "dl") == Some(b.dl)
            && "cav" in m && m["cav"] == CaveatsValue(b.cav)
            && (if b.crit == [] then "crit" !in m else "crit" in m && m["crit"] == StrList(b.crit))
  {
    hide CaveatsValue, StrList, SerializableBlock;
    assert |"crit"| == 4 && |"dl"| == 2;
    assert "typ"[0] == 't' && "iss"[0] == 'i' && "aud"[0] == 'a' && "prf"[0] == 'p' && "sig"[0] == 's';
    assert "nbf"[0] == 'n' && "exp"[0] == 'e' && "cav"[0] == 'c';
  }

  /** Decoding the object of a block gives the block back. */
  lemma BlockBack(b: RestrictBlock)
    requires SerializableBlock(b) && forall c | c in b.cav :: Faithful(c)
    ensures DecodeBlock(Obj(BlockFields(b))) == Some(b)
  {
    hide BlockFields, StrAt, NumAt, CaveatsAt, CaveatsValue, Faithful, Serializable, ListAt;
    BlockFieldsAt(b);
    CaveatsBack(BlockFields(b), b.cav);
    CritBack(BlockFields(b), b.crit);
  }

  lemma CritBack(m: Fields, crit: seq<string>)
    requires if crit == [] then "crit" !in m else "crit" in m && m["crit"] == StrList(crit)
    ensures ListAt(m, "crit") == if crit == [] then Some(None) else Some(Some(crit))
  {
    StrsOfList(crit);
  }

  lemma DecodedCaveats(m: Fields)
    requires CaveatsAt(m).Some? && forall c | c in CaveatsAt(m).value :: Serializable(c)
    ensures forall c | c in CaveatsAt(m).value :: Faithful(c)
  {
    hide Faithful, Serializable, DecodeConstraint;
    var cs := CaveatsAt(m).value;
    forall c | c in cs ensures Faithful(c) {
      var i :| 0 <= i < |cs| && cs[i] == c;
      DecodedIsFaithful(m["cav"].items[i]);
    }
  }

  /**
   * The parser is the exact inverse of canonical serialization: it accepts raw as b if and only if raw is
   * the canonical serialization of b, b is complete and its raw payloads are canonical.
   */
  lemma ParsesExactly(raw: Bytes, b: RestrictBlock)
    ensures ParseRestrictBlock(raw) == Some(b) <==>
            Complete(b) && (forall c | c in b.cav :: Faithful(c)) && BlockBytes(b) == Some(raw)
  {
    hide DecodeBlock, BlockFields, CanonicalBytes, ValueOf, Faithful, Serializable;
    if ParseRestrictBlock(raw) == Some(b) {
      DecodedBlockCaveats(ValueOf(raw).value);
    }
    if Complete(b) && (forall c | c in b.cav :: Faithful(c)) && BlockBytes(b) == Some(raw) {
      CanonicalDenotes(Obj(BlockFields(b)));
      BlockBack(b);
    }
  }

  lemma DecodedBlockCaveats(v: Value)
    requires DecodeBlock(v).Some? && SerializableBlock(DecodeBlock(v).value)
    ensures forall c | c in DecodeBlock(v).value.cav :: Faithful(c)
  {
    hide StrAt, NumAt, CaveatsAt, ListAt, Faithful, Serializable;
    DecodedCaveats(v.fields);
  }

  /** No two byte strings parse to the same block. */
  lemma OneEncoding(a: Bytes, b: Bytes)
    requires ParseRestrictBlock(a).Some? && ParseRestrictBlock(a) == ParseRestrictBlock(b)
    ensures a == b
  {
    hide BlockBytes, DecodeBlock, Complete;
  }
}
