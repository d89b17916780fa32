/** The analyser as written, on the sequential path: the token loop over a serial runner and the
    rewriting loop over an output writer. */
module ByteAnalyzer {
  import opened Prelude
  import opened Rules
  import opened TokenCache
  import opened SerialRunner
  import opened Tokenizer
  import opened Rewriting
  import opened Redaction

  class OutputWriter {
    var written: Bytes

    constructor ()
      ensures written == []
    {
      written := [];
    }

    method Write(data: Bytes)
      modifies this
      ensures written == old(written) + data
    {
      written := written + data;
    }
  }

  datatype AnonymizationDetails = AnonymizationDetails(hasFindings: bool, detected: set<Entity>, anonymized: set<Entity>)

  /** The first match of token i is a rule of this entity. */
  ghost predicate DetectsEntity(rules: seq<Rule>, data: Bytes, i: int, e: Entity)
    requires Ordered(data, Tokens(data))
  {
    0 <= i < |Tokens(data)| && var decision := FirstMatch(rules, Tokens(data)[i].Content(data));
                               decision.Some? && decision.value.matcher.entity == e
  }

  /** Which cache commands fail while token i is processed. */
  datatype Faults = Faults(read: nat -> bool, save: nat -> bool)

  lemma Written(start: Bytes, gap: Bytes, shown: Bytes, rest: Bytes)
    ensures start + (gap + (shown + rest)) == ((start + gap) + shown) + rest
  {
  }

  lemma WrittenInTwo(start: Bytes, repeated: Bytes, kept: Bytes)
    ensures (start + repeated) + kept == start + (repeated + kept)
  {
  }

  /** Writes a token's replacement: the placeholder; or the symbol once for every covered byte and
      then the uncovered ones; or, for any other strategy, nothing. */
  method ApplyAction(output: OutputWriter, content: Bytes, action: Action)
    requires action.token.Fits(content) && Renderable(action.settings)
    modifies output
    ensures output.written == old(output.written) + Rendering(action.token.Content(content), action.settings)
    ensures action.settings.strategy == 0 ==> output.written == old(output.written) + action.settings.redact.value
    ensures action.settings.strategy == 1 ==>
              var token, mask := action.token, action.settings.mask.value;
              exists n :: Covers(mask.maxSize, token.end - token.start, n)
                && output.written == old(output.written) + Repeat(mask.maskingChar, n) + content[token.start + n..token.end]
    ensures action.settings.strategy !in {0, 1} ==> output.written == old(output.written)
  {
    var token, settings := action.token, action.settings;
    if settings.strategy == REDACT {
      output.Write(settings.redact.value);
    } else if settings.strategy == MASK {
      var replacement := settings.mask.value.maskingChar;
      var n := settings.mask.value.maxSize;
      if n <= 0 {
        n := 1;
      }
      if n > token.end - token.start {
        n := token.end - token.start;
      }
      assert Covers(settings.mask.value.maxSize, token.end - token.start, n);
      output.Write(Repeat(replacement, n));
      output.Write(content[token.start + n..token.end]);
      assert content[token.start + n..token.end] == token.Content(content)[n..];
      WrittenInTwo(old(output.written), Repeat(replacement, n), content[token.start + n..token.end]);
    } else {
      assert old(output.written) + [] == old(output.written);
    }
  }

  /** Writes the content with every action applied; no slice is ever out of range. */
  method ApplyActions(output: OutputWriter, content: Bytes, actions: seq<Action>)
    requires Applicable(content, actions)
    modifies output
    ensures Due(content, actions, 0, 0)
    ensures output.written == old(output.written) + Rewrite(content, actions, 0, 0)
  {
    var lastPos: nat := 0;
    for i := 0 to |actions|
      invariant Due(content, actions, i, lastPos)
      invariant output.written + Rewrite(content, actions, i, lastPos)
             == old(output.written) + Rewrite(content, actions, 0, 0)
    {
      var token := actions[i].token;
      ghost var start := output.written;
      Written(start, content[lastPos..token.start], Shown(content, actions, i), Rewrite(content, actions, i + 1, token.end));
      output.Write(content[lastPos..token.start]);
      ApplyAction(output, content, actions[i]);
      lastPos := token.end;
    }
    output.Write(content[lastPos..]);
  }

  lemma EntitiesAreDetected(rules: seq<Rule>, data: Bytes)
    requires Ordered(data, Tokens(data))
    ensures forall e :: e in MatchedEntities(FirstMatches(rules, data, Tokens(data)), |Tokens(data)|)
                   <==> exists i :: DetectsEntity(rules, data, i, e)
  {
    var answers := FirstMatches(rules, data, Tokens(data));
    var matched := MatchedEntities(answers, |answers|);
    forall e ensures e in matched <==> exists i :: DetectsEntity(rules, data, i, e) {
      if e in matched {
        var i :| 0 <= i < |answers| && answers[i].Some? && answers[i].value.Entity() == e;
        assert DetectsEntity(rules, data, i, e);
      }
      if i :| DetectsEntity(rules, data, i, e) { assert answers[i].Some?; }
    }
  }

  class Analyzer {
    const runner: SerialRulesRunner

    constructor (runner: SerialRulesRunner)
      ensures this.runner == runner
    {
      this.runner := runner;
    }

    /** One action per matched token, in token order, whatever the cache holds or fails to do. */
    method AnonymizeSequential(rules: seq<Rule>, content: Bytes, faults: Faults, ghost truth: Truth)
      returns (actions: seq<Action>, entities: set<Entity>)
      requires Coherent(truth, rules) && TrueNegatives(truth, runner.cache.hashes)
      modifies runner.cache
      ensures Ordered(content, Tokens(content))
      ensures actions == MatchedActions(FirstMatches(rules, content, Tokens(content)), Tokens(content), |Tokens(content)|)
      ensures entities == MatchedEntities(FirstMatches(rules, content, Tokens(content)), |Tokens(content)|)
      ensures TrueNegatives(truth, runner.cache.hashes)
    {
      actions, entities := [], {};
      var tokens := TokenIterator(content);
      TokensAreOrdered(content);
      ghost var answers := FirstMatches(rules, content, tokens);
      for i := 0 to |tokens|
        invariant actions == MatchedActions(answers, tokens, i)
        invariant entities == MatchedEntities(answers, i)
        invariant TrueNegatives(truth, runner.cache.hashes)
      {
        var token := tokens[i];
        var matched, _ := runner.Process(rules, token.Content(content), faults.read(i), faults.save(i), truth);
        assert matched == answers[i];
        MatchedEntitiesNext(answers, i);
        if matched.Some? {
          actions := actions + [Action(token, matched.value.settings)];
          entities := entities + {matched.value.Entity()};
        }
      }
    }

    /** Writes exactly the reference output and reports exactly the matched entities; empty data
        or an empty rule list writes and reports nothing. */
    method Anonymize(rules: seq<Rule>, output: OutputWriter, data: Bytes, faults: Faults, ghost truth: Truth)
      returns (details: AnonymizationDetails)
      requires Coherent(truth, rules) && AllRenderable(rules) && TrueNegatives(truth, runner.cache.hashes)
      modifies output, runner.cache
      ensures data == [] || rules == [] ==> output.written == old(output.written) && details == AnonymizationDetails(false, {}, {})
      ensures data != [] && rules != [] ==>
                && Ordered(data, Tokens(data))
                && output.written == old(output.written) + Anonymized(rules, data)
                && (details.hasFindings <==>
                      exists i :: 0 <= i < |Tokens(data)| && FirstMatch(rules, Tokens(data)[i].Content(data)).Some?)
                && details.detected == details.anonymized
                && (forall e :: e in details.detected <==> exists i :: DetectsEntity(rules, data, i, e))
      ensures TrueNegatives(truth, runner.cache.hashes)
    {
      if |data| == 0 || |rules| == 0 {
        return AnonymizationDetails(false, {}, {});
      }
      var actions, entities := AnonymizeSequential(rules, data, faults, truth);
      ghost var tokens, answers := Tokens(data), FirstMatches(rules, data, Tokens(data));
      FirstMatchesAnswer(rules, data, tokens);
      RewriteIsReference(answers, data, tokens, 0, 0);
      FindingsIffMatch(answers, tokens, |tokens|);
      EntitiesAreDetected(rules, data);
      if |actions| > 0 {
        ApplyActions(output, data, actions);
      } else {
        assert Rewrite(data, actions, 0, 0) == data;
        output.Write(data);
      }
      return AnonymizationDetails(|actions| > 0, entities, entities);
    }
  }
}
