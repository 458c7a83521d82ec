/**
  The `/ua` request handler: the `count` and `type` query values turned into
  a number of User-Agents and the list of targets they are drawn from, and
  the response filled one entry at a time.
 */
module Handler {

  import Wrappers
  import opened Strings
  import opened Decimal
  import opened Generator

  // ---------------------------------------------------------------------------
  // count

  /** The most User-Agents one request returns. */
  const MAX_COUNT: int := 100

  /**
    The number of User-Agents for the `count` query value: its value when it
    is a positive 64-bit number of at most MAX_COUNT, MAX_COUNT when it is a
    larger one, and 1 when it is empty, not a number, out of the 64-bit range
    or not positive.
   */
  function CountOf(countStr: string): (count: int)
    ensures 1 <= count <= MAX_COUNT
    ensures Atoi(countStr).Some? && 0 < Atoi(countStr).value <= MAX_COUNT ==> count == Atoi(countStr).value
    ensures Atoi(countStr).Some? && Atoi(countStr).value > MAX_COUNT ==> count == MAX_COUNT
    ensures Atoi(countStr).None? || Atoi(countStr).value <= 0 ==> count == 1
  {
    var parsed := Atoi(countStr);
    var n := if countStr != "" && parsed.Some? && parsed.value > 0 then parsed.value else 1;
    if n > MAX_COUNT then MAX_COUNT else n
  }

  /** The handler's count: start from 1, take a positive parse, then clamp. */
  method ParseCount(countStr: string) returns (count: int)
    ensures count == CountOf(countStr)
  {
    count := 1;
    if countStr != "" {
      var parsed := Atoi(countStr);
      if parsed.Some? && parsed.value > 0 {
        count := parsed.value;
      }
    }
    if count > MAX_COUNT {
      count := MAX_COUNT;
    }
  }

  /** A printed positive count is honoured up to MAX_COUNT and clamped above it. */
  lemma CountOfPrinted(n: nat)
    requires 1 <= n <= MAX_INT64
    ensures CountOf(NatToString(n)) == if n > MAX_COUNT then MAX_COUNT else n
  {
    AtoiNatToString(n);
  }

  /** Values the handler falls back to 1 for, next to one it clamps. */
  lemma CountExamples()
    ensures CountOf("") == 1
    ensures CountOf("abc") == 1
    ensures CountOf("0") == 1
    ensures CountOf("-5") == 1
    ensures CountOf("150") == MAX_COUNT
  {
    assert Atoi("0") == Wrappers.Some(0);
    assert Atoi("-5") == Wrappers.Some(-5) by {
      assert "-5"[1..] == "5";
    }
    assert Atoi("150") == Wrappers.Some(150) by {
      assert DigitsValue("150") == 150 by {
        assert "150"[..2] == "15";
        assert "15"[..1] == "1";
      }
    }
  }

  /** A number past the 64-bit range is a parse error, so it gives 1 rather than MAX_COUNT. */
  lemma CountBeyondInt64(n: nat)
    requires n > MAX_INT64
    ensures CountOf(NatToString(n)) == 1
  {
    NatToStringRoundTrip(n);
  }

  // ---------------------------------------------------------------------------
  // type

  /** The `type` names and the targets they select. */
  const TYPE_MAP: map<string, Target> :=
    map["win" := CHROME_WIN, "android" := CHROME_ANDROID, "ios" := SAFARI_IPHONE, "mac" := SAFARI_MAC]

  /** Every target, in the order used when `type` selects none. */
  const ALL_TARGETS: seq<Target> := [CHROME_WIN, CHROME_ANDROID, SAFARI_IPHONE, SAFARI_MAC]

  /** The name that selects a known target. */
  function TypeName(target: Target): (name: string)
    requires IsKnown(target)
    ensures name != [] && '@' !in name
  {
    if target == CHROME_WIN then "win"
    else if target == CHROME_ANDROID then "android"
    else if target == SAFARI_IPHONE then "ios"
    else "mac"
  }

  /** TypeName is the inverse of the type map: the map sends each target's name back to it. */
  lemma TypeNameSelects(target: Target)
    requires IsKnown(target)
    ensures TypeName(target) in TYPE_MAP && TYPE_MAP[TypeName(target)] == target
  {
  }

  /** The names of a list of known targets. */
  function TypeNames(targets: seq<Target>): (names: seq<string>)
    requires forall i :: 0 <= i < |targets| ==> IsKnown(targets[i])
    ensures |names| == |targets|
    ensures forall i :: 0 <= i < |targets| ==> names[i] == TypeName(targets[i])
  {
    if targets == [] then [] else TypeNames(targets[..|targets| - 1]) + [TypeName(targets[|targets| - 1])]
  }

  /** Every token with its surrounding white space trimmed. */
  function Trimmed(tokens: seq<string>): (names: seq<string>)
    ensures |names| == |tokens|
    ensures forall i :: 0 <= i < |tokens| ==> names[i] == TrimSpace(tokens[i])
  {
    if tokens == [] then [] else Trimmed(tokens[..|tokens| - 1]) + [TrimSpace(tokens[|tokens| - 1])]
  }

  /** The targets `names` select, in their order, repeats kept, unknown names skipped. */
  function Recognised(names: seq<string>): (targets: seq<Target>)
    ensures |targets| <= |names|
    ensures forall i :: 0 <= i < |targets| ==> IsKnown(targets[i])
  {
    if names == [] then []
    else
      var name := names[|names| - 1];
      Recognised(names[..|names| - 1]) + if name in TYPE_MAP then [TYPE_MAP[name]] else []
  }

  /** The targets for the `type` query value: the ones its trimmed `@`-separated names select, or all of them. */
  function TargetsOf(typeStr: string): (targets: seq<Target>)
    ensures targets != []
    ensures forall i :: 0 <= i < |targets| ==> IsKnown(targets[i])
  {
    var named := if typeStr != "" then Recognised(Trimmed(Split(typeStr, '@'))) else [];
    if named == [] then ALL_TARGETS else named
  }

  /** Recognising names is done name by name: the result for a concatenation is the concatenation. */
  lemma {:induction false} RecognisedConcat(a: seq<string>, b: seq<string>)
    ensures Recognised(a + b) == Recognised(a) + Recognised(b)
  {
    if b != [] {
      var front := b[..|b| - 1];
      RecognisedConcat(a, front);
      assert (a + b)[..|a + b| - 1] == a + front;
      assert (a + b)[|a + b| - 1] == b[|b| - 1];
    } else {
      assert a + b == a;
    }
  }

  /** A name that selects no target adds nothing. */
  lemma UnknownNameSkipped(a: seq<string>, name: string, b: seq<string>)
    requires name !in TYPE_MAP
    ensures Recognised(a + [name] + b) == Recognised(a + b)
  {
    RecognisedConcat(a + [name], b);
    RecognisedConcat(a, [name]);
    RecognisedConcat(a, b);
    assert [name][..0] == [];
  }

  /** A target is recognised exactly when one of the names is its name. */
  lemma {:induction false} RecognisedMembers(names: seq<string>, target: Target)
    ensures target in Recognised(names) <==>
      exists i :: 0 <= i < |names| && names[i] in TYPE_MAP && TYPE_MAP[names[i]] == target
  {
    if names != [] {
      var front := names[..|names| - 1];
      RecognisedMembers(front, target);
      if exists i :: 0 <= i < |front| && front[i] in TYPE_MAP && TYPE_MAP[front[i]] == target {
        var i :| 0 <= i < |front| && front[i] in TYPE_MAP && TYPE_MAP[front[i]] == target;
        assert names[i] == front[i];
      }
      if exists i :: 0 <= i < |names| && names[i] in TYPE_MAP && TYPE_MAP[names[i]] == target {
        var i :| 0 <= i < |names| && names[i] in TYPE_MAP && TYPE_MAP[names[i]] == target;
        if i < |names| - 1 {
          assert front[i] == names[i];
        }
      }
    }
  }

  /** Recognising the names of known targets gives those targets. */
  lemma {:induction false} RecognisedNames(targets: seq<Target>)
    requires forall i :: 0 <= i < |targets| ==> IsKnown(targets[i])
    ensures Recognised(TypeNames(targets)) == targets
  {
    if targets != [] {
      var front, last := targets[..|targets| - 1], targets[|targets| - 1];
      RecognisedNames(front);
      RecognisedNameSnoc(TypeNames(front), last);
      LastSplit(targets);
    }
  }

  /** A non-empty list is its front followed by its last element. */
  lemma LastSplit(targets: seq<Target>)
    requires targets != []
    ensures targets == targets[..|targets| - 1] + [targets[|targets| - 1]]
  {
  }

  /** One more target name recognises one more target: that one. */
  lemma RecognisedNameSnoc(names: seq<string>, target: Target)
    requires IsKnown(target)
    ensures Recognised(names + [TypeName(target)]) == Recognised(names) + [target]
  {
    RecognisedSnoc(names, TypeName(target));
    TypeNameSelects(target);
  }

  /** The name of a known target has no white space to trim. */
  lemma TypeNameTrimmed(target: Target)
    requires IsKnown(target)
    ensures var name := TypeName(target);
      !IsSpace(name[0]) && !IsSpace(name[|name| - 1]) && TrimSpace(name) == name
  {
    TrimSpaceUnchanged(TypeName(target));
  }

  /** Names that trimming leaves alone come through Trimmed unchanged. */
  lemma {:induction false} TrimmedUnchanged(names: seq<string>)
    requires forall i :: 0 <= i < |names| ==> TrimSpace(names[i]) == names[i]
    ensures Trimmed(names) == names
  {
    if names != [] {
      var front := names[..|names| - 1];
      TrimmedUnchanged(front);
      assert names == front + [names[|names| - 1]];
    }
  }

  /** Naming targets one after another, joined with `@`, selects exactly those targets, in that order. */
  lemma TargetsOfNames(targets: seq<Target>)
    requires targets != []
    requires forall i :: 0 <= i < |targets| ==> IsKnown(targets[i])
    ensures TargetsOf(Join(TypeNames(targets), '@')) == targets
  {
    var names := TypeNames(targets);
    JoinedNamesTokens(targets, names);
    RecognisedNames(targets);
  }

  /** Target names joined with `@` split and trim back to the names, and the joined value is not empty. */
  lemma JoinedNamesTokens(targets: seq<Target>, names: seq<string>)
    requires targets != []
    requires forall i :: 0 <= i < |targets| ==> IsKnown(targets[i])
    requires names == TypeNames(targets)
    ensures Join(names, '@') != ""
    ensures Trimmed(Split(Join(names, '@'), '@')) == names
  {
    NamesAreTokens(targets, names);
    JoinLength(names, '@');
    SplitJoin(names, '@');
    TrimmedUnchanged(names);
  }

  /** The names of known targets are non-empty, free of `@` and untouched by trimming. */
  lemma NamesAreTokens(targets: seq<Target>, names: seq<string>)
    requires forall i :: 0 <= i < |targets| ==> IsKnown(targets[i])
    requires names == TypeNames(targets)
    ensures forall i :: 0 <= i < |names| ==> names[i] != [] && '@' !in names[i]
    ensures forall i :: 0 <= i < |names| ==> TrimSpace(names[i]) == names[i]
  {
    forall i | 0 <= i < |names| ensures TrimSpace(names[i]) == names[i] {
      TypeNameTrimmed(targets[i]);
    }
  }

  /** A `type` value none of whose trimmed names selects a target falls back to every target. */
  lemma TargetsFallback(typeStr: string)
    requires forall i :: 0 <= i < |Split(typeStr, '@')| ==> TrimSpace(Split(typeStr, '@')[i]) !in TYPE_MAP
    ensures TargetsOf(typeStr) == ALL_TARGETS
  {
    var names := Trimmed(Split(typeStr, '@'));
    if Recognised(names) != [] {
      RecognisedMembers(names, Recognised(names)[0]);
    }
  }

  /** Trimming one more token appends its trimmed form. */
  lemma TrimmedSnoc(tokens: seq<string>, token: string)
    ensures Trimmed(tokens + [token]) == Trimmed(tokens) + [TrimSpace(token)]
  {
    assert (tokens + [token])[..|tokens|] == tokens;
  }

  /** Recognising one more name appends its target, if it has one. */
  lemma RecognisedSnoc(names: seq<string>, name: string)
    ensures Recognised(names + [name]) == Recognised(names) + if name in TYPE_MAP then [TYPE_MAP[name]] else []
  {
    assert (names + [name])[..|names|] == names;
  }

  /** The targets of the first `i + 1` tokens: those of the first `i`, then the target of token `i`, if any. */
  lemma RecognisedNext(tokens: seq<string>, i: nat)
    requires i < |tokens|
    ensures Recognised(Trimmed(tokens[..i + 1])) ==
      Recognised(Trimmed(tokens[..i])) + if TrimSpace(tokens[i]) in TYPE_MAP then [TYPE_MAP[TrimSpace(tokens[i])]] else []
  {
    assert tokens[..i + 1] == tokens[..i] + [tokens[i]];
    TrimmedSnoc(tokens[..i], tokens[i]);
    RecognisedSnoc(Trimmed(tokens[..i]), TrimSpace(tokens[i]));
  }

  /** "ios@win" selects the iPhone and then the Windows target. */
  lemma TargetsInOrder()
    ensures TargetsOf("ios@win") == [SAFARI_IPHONE, CHROME_WIN]
  {
    var targets := [SAFARI_IPHONE, CHROME_WIN];
    assert TypeNames(targets) == ["ios", "win"];
    TargetsOfNames(targets);
    assert ["ios", "win"][1..] == ["win"];
    assert Join(["ios", "win"], '@') == "ios" + ['@'] + "win";
    assert "ios" + ['@'] + "win" == "ios@win";
  }

  /**
    Two names, the second with a space on each side, select their two
    targets in order; naming one target twice selects it twice.
   */
  lemma TargetsPadded(t: Target, u: Target)
    requires IsKnown(t) && IsKnown(u)
    ensures TargetsOf(TypeName(t) + "@ " + TypeName(u) + " ") == [t, u]
  {
    var a, b := TypeName(t), TypeName(u);
    TypeNameTrimmed(t);
    TypeNameTrimmed(u);
    TrimPadded(b);
    PaddedTokens(a, b);
    assert TypeNames([t, u]) == [a, b];
    RecognisedNames([t, u]);
  }

  /** A name, `@`, then a second name with one space on each side, trims back to the two names. */
  lemma PaddedTokens(a: string, b: string)
    requires '@' !in a && '@' !in b
    requires TrimSpace(a) == a && TrimSpace([' '] + b + [' ']) == b
    ensures Trimmed(Split(a + "@ " + b + " ", '@')) == [a, b]
  {
    var padded := [' '] + b + [' '];
    SplitPadded(a, '@', b);
    TrimmedPair(a, padded);
  }

  /** Trimming two tokens trims each of them. */
  lemma TrimmedPair(a: string, b: string)
    ensures Trimmed([a, b]) == [TrimSpace(a), TrimSpace(b)]
  {
    TrimmedSnoc([], a);
    TrimmedSnoc([a], b);
    assert [a] + [b] == [a, b];
  }



  /** A `type` value with no known name, and an empty one, select every target. */
  lemma TargetsUnknown()
    ensures TargetsOf("tv") == ALL_TARGETS
    ensures TargetsOf("") == ALL_TARGETS
  {
    SplitWithoutSep("tv", '@');
    TrimSpaceUnchanged("tv");
    assert Trimmed(["tv"]) == ["tv"];
  }

  /** The handler's target list: append the target of each recognised trimmed name, then fall back to all. */
  method ParseTargets(typeStr: string) returns (targets: seq<Target>)
    ensures targets == TargetsOf(typeStr)
  {
    targets := [];
    if typeStr != "" {
      var tokens := Split(typeStr, '@');
      for i := 0 to |tokens|
        invariant targets == Recognised(Trimmed(tokens[..i]))
      {
        RecognisedNext(tokens, i);
        var name := TrimSpace(tokens[i]);
        if name in TYPE_MAP {
          targets := targets + [TYPE_MAP[name]];
        }
      }
      assert tokens[..|tokens|] == tokens;
    }
    if |targets| == 0 {
      targets := ALL_TARGETS;
    }
  }

  // ---------------------------------------------------------------------------
  // Generation and response

  /** The JSON body of a response. */
  datatype Response = Response(code: string, ua: seq<string>)

  /**
    The draws of one request, entry by entry: `picks[i]` is the index drawn
    into the target list and `draws[i]` the draws of that Generate call.
   */
  predicate BatchDrawsFit(targets: seq<Target>, count: int, picks: seq<nat>, draws: seq<Draws>) {
    && 0 <= count <= |picks| && count <= |draws|
    && forall i :: 0 <= i < count ==> picks[i] < |targets| && DrawsFit(targets[picks[i]], DEFAULT_OPTIONS, draws[i])
  }

  /**
    The User-Agents of one request: a list of `count` entries, entry `i`
    generated with default options for the target picked for it.
   */
  method GenerateBatch(targets: seq<Target>, count: int, picks: seq<nat>, draws: seq<Draws>) returns (uas: seq<string>)
    requires BatchDrawsFit(targets, count, picks, draws)
    ensures |uas| == count
    ensures forall i :: 0 <= i < count ==>
      uas[i] == Render(targets[picks[i]], DEFAULT_OPTIONS, draws[i]).userAgent
  {
    uas := seq(count, _ => "");
    for i := 0 to count
      invariant |uas| == count
      invariant forall j :: 0 <= j < i ==> uas[j] == Render(targets[picks[j]], DEFAULT_OPTIONS, draws[j]).userAgent
    {
      var target := targets[picks[i]];
      var r := Generate(target, [], draws[i]);
      uas := uas[i := r.userAgent];
    }
  }

  /**
    handleUA: the count and the targets from the query values, then one
    generated User-Agent per entry, each for a target the request allows.
   */
  method HandleUA(countStr: string, typeStr: string, picks: seq<nat>, draws: seq<Draws>) returns (resp: Response)
    requires BatchDrawsFit(TargetsOf(typeStr), CountOf(countStr), picks, draws)
    ensures resp.code == "200"
    ensures |resp.ua| == CountOf(countStr)
    ensures forall i :: 0 <= i < |resp.ua| ==>
      IsKnown(TargetsOf(typeStr)[picks[i]]) &&
      resp.ua[i] == Render(TargetsOf(typeStr)[picks[i]], DEFAULT_OPTIONS, draws[i]).userAgent
    ensures forall i :: 0 <= i < |resp.ua| ==> resp.ua[i] != ""
  {
    var count := ParseCount(countStr);
    var targets := ParseTargets(typeStr);
    var uas := GenerateBatch(targets, count, picks, draws);
    resp := Response("200", uas);
  }
}
