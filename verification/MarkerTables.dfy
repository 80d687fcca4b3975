/** Which entries of the marker tables can be reported at all, entry by entry. */
module MarkerTables {
  import opened Common
  import opened ZeroCause

  /** The needle is longer than the marker or holds one of these characters. */
  predicate Misfits(marker: string, needle: string, a: char, b: char, c: char, d: char) {
    |needle| > |marker| || a in needle || b in needle || c in needle || d in needle
  }

  /** A marker that lacks the characters holds no needle that misfits. */
  lemma NoneFits(marker: string, table: seq<string>, n: nat, a: char, b: char, c: char, d: char)
    requires n <= |table| && a !in marker && b !in marker && c !in marker && d !in marker
    requires forall i :: 0 <= i < n ==> Misfits(marker, table[i], a, b, c, d) || !Contains(marker, table[i])
    ensures NoneOf(marker, table, n)
  {
    forall i | 0 <= i < n && Misfits(marker, table[i], a, b, c, d) ensures !Contains(marker, table[i]) {
      MisfitIsAbsent(marker, table[i], a, b, c, d);
    }
  }

  lemma DiffersAt(s: string, needle: string, i: nat, j: nat)
    requires j < |needle| && i + j < |s| && s[i + j] != needle[j]
    ensures !OccursAt(s, needle, i)
  {
    if i + |needle| <= |s| {
      assert s[i..i + |needle|][j] == s[i + j];
    }
  }

  lemma MisfitIsAbsent(marker: string, needle: string, a: char, b: char, c: char, d: char)
    requires a !in marker && b !in marker && c !in marker && d !in marker && Misfits(marker, needle, a, b, c, d)
    ensures !Contains(marker, needle)
  {
    if |needle| <= |marker| {
      var j: nat :| j < |needle| && (needle[j] == a || needle[j] == b || needle[j] == c || needle[j] == d);
      forall i: nat | i <= |marker| ensures !OccursAt(marker, needle, i) {
        if i + j < |marker| {
          assert marker[i + j] in marker;
          DiffersAt(marker, needle, i, j);
        }
      }
    }
  }

  /** All page selectors hold an `e` and an `r`, and each holds a dash, an underscore or an equals sign. */
  lemma SelectorsAbsent(marker: string)
    requires 'e' !in marker || 'r' !in marker || ('-' !in marker && '_' !in marker && '=' !in marker)
    ensures NoneOf(marker, RESULT_PAGE_SELECTORS, |RESULT_PAGE_SELECTORS|)
  {
    hide Contains;
    if 'e' !in marker {
      NoneFits(marker, RESULT_PAGE_SELECTORS, 15, 'e', 'e', 'e', 'e');
    } else if 'r' !in marker {
      NoneFits(marker, RESULT_PAGE_SELECTORS, 15, 'r', 'r', 'r', 'r');
    } else {
      NoneFits(marker, RESULT_PAGE_SELECTORS, 15, '-', '_', '=', '=');
    }
  }

  /** Every Cloudflare entry but `botnet` holds one of these. */
  lemma CloudflareAbsent(marker: string)
    requires '-' !in marker && '_' !in marker && 'A' !in marker && 'm' !in marker && !Contains(marker, "botnet")
    ensures NoneOf(marker, CLOUDFLARE_MARKERS, |CLOUDFLARE_MARKERS|)
  {
    hide Contains;
    NoneFits(marker, CLOUDFLARE_MARKERS, 18, '-', '_', 'A', 'm');
  }

  /** A needle whose first character occurs once, and is not followed as in the needle. */
  lemma OneStart(before: string, c: char, after: string, needle: string, k: nat)
    requires c !in before && c !in after && k < |needle| - 1 && needle[0] == c
    requires k < |after| && after[k] != needle[k + 1]
    ensures !Contains(before + [c] + after, needle)
  {
    var s := before + [c] + after;
    forall i: nat | i <= |s| ensures !OccursAt(s, needle, i) {
      if i == |before| {
        assert s[i + k + 1] == after[k];
        DiffersAt(s, needle, i, k + 1);
      } else if i < |s| {
        assert s[i] in before || s[i] in after;
        DiffersAt(s, needle, i, 0);
      }
    }
  }

  lemma Cloudflare0()
    ensures StandsAlone(CLOUDFLARE_MARKERS, 0)
  {
    var m: string := "cf-chl-bypass";
    assert m == CLOUDFLARE_MARKERS[0];
    hide Contains;
    SelectorsAbsent(m);
  }

  lemma Cloudflare1()
    ensures StandsAlone(CLOUDFLARE_MARKERS, 1)
  {
    var m: string := "cf-challenge";
    assert m == CLOUDFLARE_MARKERS[1];
    hide Contains;
    SelectorsAbsent(m);
    NoneFits(m, CLOUDFLARE_MARKERS, 1, '@', '@', '@', '@');
  }

  lemma Cloudflare2()
    ensures StandsAlone(CLOUDFLARE_MARKERS, 2)
  {
    var m: string := "challenge-platform";
    assert m == CLOUDFLARE_MARKERS[2];
    assert m == "" + ['c'] + "hallenge-platform";
    OneStart("", 'c', "hallenge-platform", "cf-challenge", 0);
    hide Contains;
    NoneFits(m, RESULT_PAGE_SELECTORS, 15, 'i', 's', 's', 's');
    NoneFits(m, CLOUDFLARE_MARKERS, 2, 'b', 'b', 'b', 'b');
  }

  lemma Cloudflare3()
    ensures StandsAlone(CLOUDFLARE_MARKERS, 3)
  {
    var m: string := "Attention Required";
    assert m == CLOUDFLARE_MARKERS[3];
    hide Contains;
    SelectorsAbsent(m);
    NoneFits(m, CLOUDFLARE_MARKERS, 3, '-', '-', '-', '-');
  }

  lemma Cloudflare4()
    ensures StandsAlone(CLOUDFLARE_MARKERS, 4)
  {
    var m: string := "__cf_chl_jschl_tk__";
    assert m == CLOUDFLARE_MARKERS[4];
    hide Contains;
    SelectorsAbsent(m);
    NoneFits(m, CLOUDFLARE_MARKERS, 4, ' ', '-', '-', '-');
  }

  lemma Cloudflare5()
    ensures StandsAlone(CLOUDFLARE_MARKERS, 5)
  {
    var m: string := "anomaly-modal";
    assert m == CLOUDFLARE_MARKERS[5];
    hide Contains;
    SelectorsAbsent(m);
    NoneFits(m, CLOUDFLARE_MARKERS, 5, 'c', 'c', 'c', 'c');
  }

  lemma Cloudflare8()
    ensures StandsAlone(CLOUDFLARE_MARKERS, 8)
  {
    var m: string := "anomaly.js?cc=botnet";
    assert m == CLOUDFLARE_MARKERS[8];
    hide Contains;
    SelectorsAbsent(m);
    NoneFits(m, CLOUDFLARE_MARKERS, 8, 'd', 'f', 'f', 'f');
  }

  lemma Cloudflare9()
    ensures StandsAlone(CLOUDFLARE_MARKERS, 9)
  {
    var m: string := "cf-turnstile";
    assert m == CLOUDFLARE_MARKERS[9];
    hide Contains;
    NoneFits(m, RESULT_PAGE_SELECTORS, 15, '_', 'k', 'k', 'k');
    NoneFits(m, CLOUDFLARE_MARKERS, 9, 'a', 'a', 'a', 'a');
  }

  lemma Cloudflare10()
    ensures StandsAlone(CLOUDFLARE_MARKERS, 10)
  {
    var m: string := "cf-spinner";
    assert m == CLOUDFLARE_MARKERS[10];
    hide Contains;
    NoneFits(m, RESULT_PAGE_SELECTORS, 15, '_', '_', '_', '_');
    NoneFits(m, CLOUDFLARE_MARKERS, 10, '@', '@', '@', '@');
  }

  lemma Cloudflare11()
    ensures StandsAlone(CLOUDFLARE_MARKERS, 11)
  {
    var m: string := "Just a moment";
    assert m == CLOUDFLARE_MARKERS[11];
    hide Contains;
    SelectorsAbsent(m);
    NoneFits(m, CLOUDFLARE_MARKERS, 11, '-', '-', '-', '-');
  }

  lemma Cloudflare12()
    ensures StandsAlone(CLOUDFLARE_MARKERS, 12)
  {
    var m: string := "cf-mitigated";
    assert m == CLOUDFLARE_MARKERS[12];
    hide Contains;
    SelectorsAbsent(m);
    NoneFits(m, CLOUDFLARE_MARKERS, 12, 'n', 'n', 'n', 'n');
  }

  lemma Cloudflare13()
    ensures StandsAlone(CLOUDFLARE_MARKERS, 13)
  {
    var m: string := "anomaly.js";
    assert m == CLOUDFLARE_MARKERS[13];
    hide Contains;
    SelectorsAbsent(m);
    NoneFits(m, CLOUDFLARE_MARKERS, 13, '-', '-', '-', '-');
  }

  lemma Cloudflare14()
    ensures StandsAlone(CLOUDFLARE_MARKERS, 14)
  {
    var m: string := "botnet";
    assert m == CLOUDFLARE_MARKERS[14];
    hide Contains;
    SelectorsAbsent(m);
    NoneFits(m, CLOUDFLARE_MARKERS, 14, '@', '@', '@', '@');
  }

  lemma Cloudflare15()
    ensures StandsAlone(CLOUDFLARE_MARKERS, 15)
  {
    var m: string := "cf-error-code";
    assert m == CLOUDFLARE_MARKERS[15];
    hide Contains;
    NoneFits(m, RESULT_PAGE_SELECTORS, 15, 't', 't', 't', 't');
    NoneFits(m, CLOUDFLARE_MARKERS, 15, 'a', 'n', 'n', 'n');
  }

  lemma Cloudflare16()
    ensures StandsAlone(CLOUDFLARE_MARKERS, 16)
  {
    var m: string := "cf-ray";
    assert m == CLOUDFLARE_MARKERS[16];
    hide Contains;
    SelectorsAbsent(m);
    NoneFits(m, CLOUDFLARE_MARKERS, 16, 'b', 'b', 'b', 'b');
  }

  lemma Cloudflare17Lacks(m: string, c: char)
    requires m == CLOUDFLARE_MARKERS[17]
    requires c == '-' || c == '_' || c == '=' || c == 'A' || c == 's'
    ensures c !in m
  {
  }

  lemma Cloudflare17Botnet(m: string)
    requires m == CLOUDFLARE_MARKERS[17]
    ensures !Contains(m, "botnet")
  {
    assert m == "Performance & Security " + ['b'] + "y Cloudflare";
    OneStart("Performance & Security ", 'b', "y Cloudflare", "botnet", 0);
  }

  lemma Cloudflare17Earlier(m: string)
    requires '-' !in m && 'A' !in m && 's' !in m && !Contains(m, "botnet")
    ensures NoneOf(m, CLOUDFLARE_MARKERS, 17)
  {
    hide Contains;
    NoneFits(m, CLOUDFLARE_MARKERS, 17, '-', 'A', 's', 's');
  }

  lemma Cloudflare17()
    ensures StandsAlone(CLOUDFLARE_MARKERS, 17)
  {
    hide Contains, NoneOf;
    var m := CLOUDFLARE_MARKERS[17];
    Cloudflare17Lacks(m, '-');
    Cloudflare17Lacks(m, '_');
    Cloudflare17Lacks(m, '=');
    Cloudflare17Lacks(m, 'A');
    Cloudflare17Lacks(m, 's');
    Cloudflare17Botnet(m);
    SelectorsAbsent(m);
    Cloudflare17Earlier(m);
  }

  lemma DuckDuckGo0()
    ensures StandsAlone(DDG_MARKERS, 0) && NoneOf(DDG_MARKERS[0], CLOUDFLARE_MARKERS, |CLOUDFLARE_MARKERS|)
  {
    var m: string := "robot-detected";
    assert m == DDG_MARKERS[0];
    hide Contains;
    NoneFits(m, RESULT_PAGE_SELECTORS, 15, 'a', 'i', 'i', 'i');
    NoneFits(m, CLOUDFLARE_MARKERS, 18, 'f', 'n', 'n', 'n');
  }

  lemma DuckDuckGo1()
    ensures StandsAlone(DDG_MARKERS, 1) && NoneOf(DDG_MARKERS[1], CLOUDFLARE_MARKERS, |CLOUDFLARE_MARKERS|)
  {
    var m: string := "bots, we have detected";
    assert m == DDG_MARKERS[1];
    MisfitIsAbsent(m, "botnet", 'n', 'n', 'n', 'n');
    hide Contains;
    SelectorsAbsent(m);
    CloudflareAbsent(m);
    NoneFits(m, DDG_MARKERS, 1, '-', '-', '-', '-');
  }

  lemma EarlierAbsent(marker: string, n: nat)
    requires '-' !in marker && 'h' !in marker && (n == 2 || (n == 3 && |marker| < |DDG_MARKERS[2]|))
    ensures NoneOf(marker, DDG_MARKERS, n)
  {
    hide Contains;
    NoneFits(marker, DDG_MARKERS, n, '-', 'h', 'h', 'h');
  }

  lemma DuckDuckGo2Lacks(m: string, c: char)
    requires m == DDG_MARKERS[2]
    requires c == '-' || c == '_' || c == '=' || c == 'A' || c == 'm' || c == 'h'
    ensures c !in m
  {
  }

  lemma DuckDuckGo2Botnet(m: string)
    requires m == DDG_MARKERS[2]
    ensures !Contains(m, "botnet")
  {
    assert m == "Unfortunately, " + ['b'] + "ots use DuckDuckGo too.";
    OneStart("Unfortunately, ", 'b', "ots use DuckDuckGo too.", "botnet", 2);
  }

  lemma DuckDuckGo2()
    ensures StandsAlone(DDG_MARKERS, 2) && NoneOf(DDG_MARKERS[2], CLOUDFLARE_MARKERS, |CLOUDFLARE_MARKERS|)
  {
    hide Contains, NoneOf;
    var m := DDG_MARKERS[2];
    DuckDuckGo2Lacks(m, '-');
    DuckDuckGo2Lacks(m, '_');
    DuckDuckGo2Lacks(m, '=');
    DuckDuckGo2Lacks(m, 'A');
    DuckDuckGo2Lacks(m, 'm');
    DuckDuckGo2Lacks(m, 'h');
    EarlierAbsent(m, 2);
    DuckDuckGo2Botnet(m);
    SelectorsAbsent(m);
    CloudflareAbsent(m);
  }

  lemma DuckDuckGo3Lacks(m: string, c: char)
    requires m == DDG_MARKERS[3]
    requires c == '-' || c == '_' || c == '=' || c == 'A' || c == 'm' || c == 'h'
    ensures c !in m
  {
  }

  lemma DuckDuckGo3Botnet(m: string)
    requires m == DDG_MARKERS[3]
    ensures !Contains(m, "botnet")
  {
    assert m == "Unfortunately, " + ['b'] + "ots";
    OneStart("Unfortunately, ", 'b', "ots", "botnet", 2);
  }

  lemma DuckDuckGo3()
    ensures StandsAlone(DDG_MARKERS, 3) && NoneOf(DDG_MARKERS[3], CLOUDFLARE_MARKERS, |CLOUDFLARE_MARKERS|)
  {
    hide Contains, NoneOf;
    var m := DDG_MARKERS[3];
    DuckDuckGo3Lacks(m, '-');
    DuckDuckGo3Lacks(m, '_');
    DuckDuckGo3Lacks(m, '=');
    DuckDuckGo3Lacks(m, 'A');
    DuckDuckGo3Lacks(m, 'm');
    DuckDuckGo3Lacks(m, 'h');
    EarlierAbsent(m, 3);
    DuckDuckGo3Botnet(m);
    SelectorsAbsent(m);
    CloudflareAbsent(m);
  }

  // ----- All of them -----

  lemma MaskAndTitleDoNotStandAlone()
    ensures !StandsAlone(CLOUDFLARE_MARKERS, 6) && !StandsAlone(CLOUDFLARE_MARKERS, 7)
  {
    MaskAndTitleContainModal();
    hide Contains;
    assert CLOUDFLARE_MARKERS[5] == "anomaly-modal";
  }

  lemma CloudflareAlone(k: nat)
    requires k < |CLOUDFLARE_MARKERS|
    ensures StandsAlone(CLOUDFLARE_MARKERS, k) <==> k != 6 && k != 7
  {
    hide StandsAlone;
    MaskAndTitleDoNotStandAlone();
    match k
    case 0 => Cloudflare0();
    case 1 => Cloudflare1();
    case 2 => Cloudflare2();
    case 3 => Cloudflare3();
    case 4 => Cloudflare4();
    case 5 => Cloudflare5();
    case 8 => Cloudflare8();
    case 9 => Cloudflare9();
    case 10 => Cloudflare10();
    case 11 => Cloudflare11();
    case 12 => Cloudflare12();
    case 13 => Cloudflare13();
    case 14 => Cloudflare14();
    case 15 => Cloudflare15();
    case 16 => Cloudflare16();
    case 17 => Cloudflare17();
    case _ =>
  }

  lemma CloudflareEntriesDiffer(k: nat)
    requires k < |CLOUDFLARE_MARKERS|
    ensures CLOUDFLARE_MARKERS[k] !in CLOUDFLARE_MARKERS[..k]
  {
  }

  /** Exactly two of the eighteen Cloudflare entries are never reported, whatever the body. */
  lemma TwoEntriesAreNeverReported(k: nat)
    requires k < |CLOUDFLARE_MARKERS|
    ensures (exists html :: DetectWithMatch(html) == (CLOUDFLARE_MARKERS[k], Cloudflare)) <==> k != 6 && k != 7
  {
    CloudflareEntriesDiffer(k);
    hide DetectWithMatch, StandsAlone;
    CloudflareAlone(k);
    CloudflareReportedExactly(k);
  }

  /** Each of the four entries of the other table is reported on some body. */
  lemma DuckDuckGoEntriesAreReported(k: nat)
    requires k < |DDG_MARKERS|
    ensures exists html :: DetectWithMatch(html) == (DDG_MARKERS[k], DuckDuckGo)
  {
    hide DetectWithMatch, StandsAlone, NoneOf;
    match k
    case 0 => DuckDuckGo0(); DuckDuckGoAlone(0);
    case 1 => DuckDuckGo1(); DuckDuckGoAlone(1);
    case 2 => DuckDuckGo2(); DuckDuckGoAlone(2);
    case _ => DuckDuckGo3(); DuckDuckGoAlone(3);
  }
}
