/**
 * The configuration checks the plugin makes before it manages an index
 * template: a managed template needs a name, and its match pattern is the
 * index pattern's static prefix followed by `*`, so the prefix must not be
 * empty.
 */
module TemplateConfig {
  import opened Wrappers
  import opened Calendar
  import opened IndexName

  /** The plugin settings that template management reads. */
  datatype Elasticsearch = Elasticsearch(
    indexName: string,
    manageTemplate: bool,
    templateName: string,
    overwriteTemplate: bool,
    defaultTagValue: string)

  datatype ConfigError =
    | EmptyTemplateName  // template management is on but no template name is set
    | NoIndexPrefix      // the index pattern starts with a time directive or a tag placeholder

  /** What template management will do once connected. */
  datatype TemplatePlan =
    | NotManaged
    | Install(templateName: string, matchPattern: string, overwrite: bool)

  /**
   * The literal text of an index pattern before its first dynamic element:
   * a `%` (time directive) or a `{{` (tag placeholder).
   */
  function IndexPrefix(p: string): (r: string)
    ensures r <= p
    ensures forall i :: 0 <= i < |r| ==> p[i] != '%' && !OpensAt(p, i)
    ensures |r| < |p| ==> p[|r|] == '%' || OpensAt(p, |r|)
  {
    if p == [] || p[0] == '%' || OpensAt(p, 0) then []
    else
      var rest := IndexPrefix(p[1..]);
      assert forall i :: 1 <= i <= |rest| ==> (OpensAt(p, i) <==> OpensAt(p[1..], i - 1));
      [p[0]] + rest
  }

  /** Literal text with neither `%` nor `{` belongs to the prefix. */
  lemma {:induction false} IndexPrefixAfterLiteral(a: string, s: string)
    requires '%' !in a && '{' !in a
    ensures IndexPrefix(a + s) == a + IndexPrefix(s)
    decreases |a|
  {
    if a == [] {
      assert a + s == s;
    } else {
      var x := a + s;
      AbsentFromTail(a, '%');
      AbsentFromTail(a, '{');
      assert x[0] == a[0] && x[1..] == a[1..] + s;
      assert !OpensAt(x, 0);
      IndexPrefixAfterLiteral(a[1..], s);
      assert a == [a[0]] + a[1..];
    }
  }

  /** A template match pattern `prefix*` covers every name that starts with `prefix`. */
  predicate WildcardMatches(pattern: string, name: string) {
    pattern != [] && pattern[|pattern| - 1] == '*' && pattern[..|pattern| - 1] <= name
  }

  /**
   * The pre-checks of template management: nothing to do when it is off;
   * otherwise an empty template name is an error, checked first, and so is
   * an index pattern with no static prefix.
   */
  function CheckTemplateConfig(e: Elasticsearch): (r: Result<TemplatePlan, ConfigError>)
    ensures !e.manageTemplate <==> r == Ok(NotManaged)
    ensures r.Err? <==> e.manageTemplate && (e.templateName == [] || IndexPrefix(e.indexName) == [])
    ensures r.Err? ==> (r.error == EmptyTemplateName <==> e.templateName == [])
    ensures r.Ok? && e.manageTemplate ==>
      r.value == Install(e.templateName, IndexPrefix(e.indexName) + "*", e.overwriteTemplate)
  {
    if !e.manageTemplate then Ok(NotManaged)
    else if e.templateName == [] then Err(EmptyTemplateName)
    else
      var prefix := IndexPrefix(e.indexName);
      if prefix == [] then Err(NoIndexPrefix)
      else Ok(Install(e.templateName, prefix + "*", e.overwriteTemplate))
  }

  /** An index pattern whose first character starts a directive or a placeholder is refused. */
  lemma {:induction false} DynamicHeadRefused(e: Elasticsearch)
    requires e.manageTemplate && e.templateName != []
    requires e.indexName == [] || e.indexName[0] == '%' || OpensAt(e.indexName, 0)
    ensures CheckTemplateConfig(e) == Err(NoIndexPrefix)
  {
    assert IndexPrefix(e.indexName) == [];
  }

  /** GetTagKeys copies a head of the pattern in which no placeholder opens. */
  lemma {:induction false} NormalisedKeepsHead(a: string, s: string)
    requires forall i :: 0 <= i < |a| ==> !OpensAt(a + s, i)
    ensures GetTagKeys(a + s).indexName == a + GetTagKeys(s).indexName
    decreases |a|
  {
    if a == [] {
      assert a + s == s;
    } else {
      var x := a + s;
      assert !OpensAt(x, 0) && x[0] == a[0];
      assert x[1..] == a[1..] + s;
      GetTagKeysCopiedHead(x);
      forall i | 0 <= i < |a[1..]| ensures !OpensAt(a[1..] + s, i) {
        assert !OpensAt(x, i + 1);
      }
      NormalisedKeepsHead(a[1..], s);
      var r := GetTagKeys(s).indexName;
      assert [a[0]] + (a[1..] + r) == a + r;
    }
  }

  /** The normalised pattern starts with the same static prefix as the pattern. */
  lemma NormalisedKeepsPrefix(p: string)
    ensures var r := IndexPrefix(p);
      GetTagKeys(p).indexName == r + GetTagKeys(p[|r|..]).indexName
  {
    var r := IndexPrefix(p);
    assert r + p[|r|..] == p;
    NormalisedKeepsHead(r, p[|r|..]);
  }

  /**
   * Every index name the resolver produces from the pattern starts with the
   * pattern's static prefix, so the template installed for it applies to
   * each index written to, whatever the event time and tags.
   */
  lemma PrefixOfEveryIndexName(p: string, t: UtcTime, tags: map<string, string>, defaultTagValue: string)
    ensures var n := GetTagKeys(p);
      IndexPrefix(p) <= GetIndexName(n.indexName, t, n.tagKeys, tags, defaultTagValue)
  {
    var r := IndexPrefix(p);
    var n := GetTagKeys(p);
    var rest := GetTagKeys(p[|r|..]).indexName;
    NormalisedKeepsPrefix(p);
    assert '%' !in r by {
      forall i | 0 <= i < |r| ensures r[i] != '%' {
        assert r[i] == p[i];
      }
    }
    ExpandTimeAfterLiteral(r, rest, RenderDate(t));
    FillSlotsAfterLiteral(r, ExpandTime(rest, RenderDate(t)), n.tagKeys, tags, defaultTagValue);
  }

  /** The installed template's match pattern covers every index name of the configuration. */
  lemma InstalledTemplateMatches(e: Elasticsearch, t: UtcTime, tags: map<string, string>)
    requires CheckTemplateConfig(e).Ok? && CheckTemplateConfig(e).value.Install?
    ensures var n := GetTagKeys(e.indexName);
      WildcardMatches(CheckTemplateConfig(e).value.matchPattern,
                      GetIndexName(n.indexName, t, n.tagKeys, tags, e.defaultTagValue))
  {
    var w := CheckTemplateConfig(e).value.matchPattern;
    PrefixOfEveryIndexName(e.indexName, t, tags, e.defaultTagValue);
    assert w[..|w| - 1] == IndexPrefix(e.indexName);
  }
}
