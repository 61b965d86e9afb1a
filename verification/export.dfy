/** The texts components/OutputSection.tsx assembles from an article: the
    script sent to speech synthesis, the clipboard text, the `.txt` export
    and the download file names. */
module Export {
  import opened JsText
  import opened Markdown
  import opened Types
  import opened Seqs

  /** `${content.headline}. \n\n ${cleanBody}`: what `fetchAudioData` asks
      the speech service to read. */
  function NarrationScript(c: GeneratedContent): (s: string)
    ensures |s| == |c.headline| + 5 + |CleanMarkdown(c.body)|
  {
    c.headline + ". \n\n " + CleanMarkdown(c.body)
  }

  /** `${content.headline}\n\n${cleanBody}`: what `handleCopy` writes to the
      clipboard. */
  function ClipboardText(c: GeneratedContent): (s: string)
    ensures |s| == |c.headline| + 2 + |CleanMarkdown(c.body)|
  {
    c.headline + "\n\n" + CleanMarkdown(c.body)
  }

  /** The script reads the headline unchanged, a fixed pause, then the body
      with only asterisks removed. */
  lemma NarrationScriptParts(c: GeneratedContent)
    ensures var s, h := NarrationScript(c), |c.headline|;
      && s[..h] == c.headline && s[h..h + 5] == ". \n\n "
      && s[h + 5..] == CleanMarkdown(c.body)
      && StarsDeleted(c.body, s[h + 5..])
  {
    CleanMarkdownDeletesStars(c.body);
  }

  /** The clipboard text is the headline, a blank line, and the body with
      only asterisks removed. */
  lemma ClipboardTextParts(c: GeneratedContent)
    ensures var s, h := ClipboardText(c), |c.headline|;
      && s[..h] == c.headline && s[h..h + 2] == "\n\n"
      && s[h + 2..] == CleanMarkdown(c.body)
      && StarsDeleted(c.body, s[h + 2..])
  {
    CleanMarkdownDeletesStars(c.body);
  }

  /** `keyTakeaways.map(k => `- ${k}`)`: each takeaway as a bullet. */
  function Bullets(keyTakeaways: seq<string>): (lines: seq<string>)
    ensures |lines| == |keyTakeaways|
    ensures forall i :: 0 <= i < |lines| ==> lines[i] == "- " + keyTakeaways[i]
  {
    if keyTakeaways == [] then []
    else ["- " + keyTakeaways[0]] + Bullets(keyTakeaways[1..])
  }

  /** `content.keyTakeaways.map(k => `- ${k}`).join('\n')`. */
  function TakeawayLines(keyTakeaways: seq<string>): string {
    Join(Bullets(keyTakeaways), "\n")
  }

  /** `handleDownloadText`'s template literal before `.trim()`: it opens with
      a line break and closes with a line break and four spaces. */
  function TextTemplate(c: GeneratedContent): string {
    "\nHeadline: " + c.headline + "\n\nKey Takeaways:\n" + TakeawayLines(c.keyTakeaways)
      + "\n\n---\n\n" + CleanMarkdown(c.body) + "\n    "
  }

  /** The contents of the `.txt` download. */
  function TextExport(c: GeneratedContent): (r: string)
    ensures r == [] || (!IsJsWhitespace(r[0]) && !IsJsWhitespace(r[|r| - 1]))
  {
    Trim(TextTemplate(c))
  }

  /** `trimStart` drops one leading line break before a visible character. */
  lemma TrimStartNewline(y: string)
    requires y != [] && !IsJsWhitespace(y[0])
    ensures TrimStart("\n" + y) == y
  {
    assert ("\n" + y)[1..] == y;
  }

  lemma BlankLineBreaks()
    ensures Blank("\n\n") && Blank("\n    ")
  {
    var tail := "\n    ";
    forall i | 0 <= i < |tail| ensures IsJsWhitespace(tail[i]) {
      assert tail[i] == '\n' || tail[i] == ' ';
    }
    forall i | 0 <= i < 2 ensures IsJsWhitespace("\n\n"[i]) { }
  }

  /** `trimEnd` of the template's shape when the body is blank: everything
      after the visible text goes. */
  lemma TrimEndFramedBlank(x: string, body: string)
    requires x != [] && !IsJsWhitespace(x[|x| - 1]) && Blank(body)
    ensures TrimEnd(x + "\n\n" + body + "\n    ") == x
  {
    BlankLineBreaks();
    TrimEndBlankSuffix(x + "\n\n" + body, "\n    ");
    TrimEndBlankSuffix(x + "\n\n", body);
    TrimEndBlankSuffix(x, "\n\n");
  }

  /** `trimEnd` of the template's shape when the body has visible text:
      only the body's own trailing whitespace and the tail go. */
  lemma TrimEndFramedText(x: string, body: string)
    requires !Blank(body)
    ensures TrimEnd(x + "\n\n" + body + "\n    ") == x + "\n\n" + TrimEnd(body)
  {
    BlankLineBreaks();
    TrimEndBlankSuffix(x + "\n\n" + body, "\n    ");
    TrimEndAppend(x + "\n\n", body);
  }

  /** The template regrouped around the text between its first line break
      and the blank line before the body. */
  lemma TemplateShape(headline: string, lines: string, clean: string)
    ensures var ruled := "Headline: " + headline + "\n\nKey Takeaways:\n" + lines + "\n\n---";
      && "\nHeadline: " + headline + "\n\nKey Takeaways:\n" + lines + "\n\n---\n\n" + clean + "\n    "
           == ("\n" + ruled) + "\n\n" + clean + "\n    "
      && ruled[0] == 'H' && ruled[|ruled| - 1] == '-'
  {
  }

  lemma Regroup(a: string, b: string, c: string)
    ensures ("\n" + a) + b + c == "\n" + (a + (b + c))
  {
  }

  /** `trim` of a visible-edged text framed by the template's leading line
      break, blank line, body and blank tail. */
  lemma TrimFramed(ruled: string, clean: string)
    requires ruled != [] && !IsJsWhitespace(ruled[0]) && !IsJsWhitespace(ruled[|ruled| - 1])
    ensures Trim(("\n" + ruled) + "\n\n" + clean + "\n    ")
      == ruled + (if Blank(clean) then "" else "\n\n" + TrimEnd(clean))
  {
    var x := "\n" + ruled;
    var framed := x + "\n\n" + clean + "\n    ";
    assert x[|x| - 1] == ruled[|ruled| - 1];
    if Blank(clean) {
      TrimEndFramedBlank(x, clean);
      TrimStartNewline(ruled);
      calc {
        Trim(framed);
        TrimStart(TrimEnd(framed));
        TrimStart(x);
        ruled;
      }
    } else {
      var e := "\n\n" + TrimEnd(clean);
      Regroup(ruled, "\n\n", TrimEnd(clean));
      TrimEndFramedText(x, clean);
      assert (ruled + e)[0] == ruled[0];
      TrimStartNewline(ruled + e);
      calc {
        Trim(framed);
        TrimStart(TrimEnd(framed));
        TrimStart("\n" + (ruled + e));
        ruled + e;
      }
    }
  }

  /** The `.txt` export, in closed form: the labelled headline, the takeaway
      lines, the rule, and the cleaned body without its trailing whitespace;
      when the cleaned body is blank the export ends at the rule. */
  lemma TextExportLayout(c: GeneratedContent)
    ensures var clean := CleanMarkdown(c.body);
      TextExport(c)
        == "Headline: " + c.headline + "\n\nKey Takeaways:\n" + TakeawayLines(c.keyTakeaways) + "\n\n---"
           + (if Blank(clean) then "" else "\n\n" + TrimEnd(clean))
  {
    var lines, clean := TakeawayLines(c.keyTakeaways), CleanMarkdown(c.body);
    TemplateShape(c.headline, lines, clean);
    TrimFramed("Headline: " + c.headline + "\n\nKey Takeaways:\n" + lines + "\n\n---", clean);
  }

  // ---------------------------------------------------------------------
  // Download file names.

  /** The decimal digits of `n`, as JavaScript prints a non-negative integer. */
  function Decimal(n: nat): (s: string)
    ensures |s| >= 1 && forall i :: 0 <= i < |s| ==> '0' <= s[i] <= '9'
    decreases n
  {
    if n < 10 then [('0' as int + n) as char]
    else Decimal(n / 10) + [('0' as int + n % 10) as char]
  }

  /** The value of a string of decimal digits. */
  function DigitsValue(s: string): (n: nat)
    requires forall i :: 0 <= i < |s| ==> '0' <= s[i] <= '9'
    decreases |s|
  {
    if s == [] then 0 else 10 * DigitsValue(s[..|s| - 1]) + (s[|s| - 1] as int - '0' as int)
  }

  /** The printed timestamp reads back as the same number. */
  lemma {:induction false} DigitsValueDecimal(n: nat)
    ensures DigitsValue(Decimal(n)) == n
    decreases n
  {
    if n >= 10 {
      DigitsValueDecimal(n / 10);
      var s := Decimal(n);
      assert s[..|s| - 1] == Decimal(n / 10);
    }
  }

  /** `editorial-ai-${style.id}-${Date.now()}.${extension}`, with the clock
      reading passed in. */
  function DownloadFileName(styleId: string, now: nat, extension: string): (name: string)
    ensures |name| == 13 + |styleId| + 1 + |Decimal(now)| + 1 + |extension|
  {
    "editorial-ai-" + styleId + "-" + Decimal(now) + "." + extension
  }

  /** The name starts with the fixed prefix and the style id and ends with
      the extension, and the timestamp in between reads back as `now`. */
  lemma DownloadFileNameParts(styleId: string, now: nat, extension: string)
    ensures var name, k := DownloadFileName(styleId, now, extension), 13 + |styleId| + 1;
      && name[..13] == "editorial-ai-" && name[13..13 + |styleId|] == styleId
      && name[k..|name| - |extension| - 1] == Decimal(now)
      && DigitsValue(name[k..|name| - |extension| - 1]) == now
      && name[|name| - |extension| - 1..] == "." + extension
  {
    var name, k := DownloadFileName(styleId, now, extension), 13 + |styleId| + 1;
    Slices6("editorial-ai-", styleId, "-", Decimal(now), ".", extension);
    assert name[k..|name| - |extension| - 1] == Decimal(now);
    DigitsValueDecimal(now);
    assert DigitsValue(name[k..|name| - |extension| - 1]) == DigitsValue(Decimal(now));
  }
}
