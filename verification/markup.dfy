/** The fixed Svelte text of a post page written by `generate_post_template`
    in src-tauri/src/blog.rs: the markup between the metadata script and the
    content division, and the footer and styles after it, with the format
    string's doubled braces already read as single ones. */
module Markup {
  import opened Search

  /** The marker `read_post` looks for to find a post's body. */
  const ContentMarker := "<div class=\"post-content\">"

  /** The markup from the end of the metadata script to the content
      division, in pieces of at most 30 characters so that facts about their
      characters can be checked a few pieces at a time. */
  const H00 := "\n</script>\n\n<script lang=\"ts\">"
  const H01 := "\n    import Citation from '$li"
  const H02 := "b/components/Citation.svelte';"
  const H03 := "\n    import References from '$"
  const H04 := "lib/components/References.svel"
  const H05 := "te';\n    \n    function formatD"
  const H06 := "ate(dateString: string): strin"
  const H07 := "g {\n        return new Date(da"
  const H08 := "teString).toLocaleDateString('"
  const H09 := "en-US', {\n            year: 'n"
  const H10 := "umeric', month: 'long', day: '"
  const H11 := "numeric'\n        });\n    }\n</s"
  const H12 := "cript>\n\n<svelte:head>\n    <tit"
  const H13 := "le>{metadata.title} | Mr. Wong"
  const H14 := "'s Blog</title>\n    <meta name"
  const H15 := "=\"description\" content={metada"
  const H16 := "ta.excerpt} />\n</svelte:head>\n"
  const H17 := "\n<article class=\"blog-post\">\n "
  const H18 := "   <div class=\"container\">\n   "
  const H19 := "     <header class=\"post-heade"
  const H20 := "r\">\n            <a href=\"/blog"
  const H21 := "\" class=\"back-link\">\n         "
  const H22 := "       <svg width=\"20\" height="
  const H23 := "\"20\" viewBox=\"0 0 24 24\" fill="
  const H24 := "\"none\" stroke=\"currentColor\" s"
  const H25 := "troke-width=\"2\">\n             "
  const H26 := "       <path d=\"M19 12H5M12 19"
  const H27 := "l-7-7 7-7\" />\n                "
  const H28 := "</svg>\n                Back to"
  const H29 := " Blog\n            </a>\n       "
  const H30 := "     <div class=\"post-meta\">\n "
  const H31 := "               <time datetime="
  const H32 := "{metadata.date}>{formatDate(me"
  const H33 := "tadata.date)}</time>\n         "
  const H34 := "       <div class=\"post-tags\">"
  const H35 := "\n                    {#each me"
  const H36 := "tadata.tags as tag}\n          "
  const H37 := "              <span class=\"tag"
  const H38 := "\">{tag}</span>\n               "
  const H39 := "     {/each}\n                "
  const H40 := "</div>\n            </div>\n    "
  const H41 := "        <h1 class=\"post-title\""
  const H42 := ">{metadata.title}</h1>\n       "
  const H43 := " </header>\n        \n        "

  const S0 := H00 + H01 + H02 + H03 + H04 + H05 + H06 + H07
  const S1 := H08 + H09 + H10 + H11 + H12 + H13 + H14 + H15
  const S2 := H16 + H17 + H18 + H19 + H20 + H21 + H22 + H23
  const S3 := H24 + H25 + H26 + H27 + H28 + H29 + H30 + H31
  const S4 := H32 + H33 + H34 + H35 + H36 + H37 + H38 + H39
  const S5 := H40 + H41 + H42 + H43

  const PageHead := S0 + S1 + S2 + S3 + S4 + S5

  /** The markup after the content division: the page footer and styles,
      one line of the page per line here, in pieces of at most 10
      characters (short literals are cheap to reason about). */
  const PageFoot :=
    "\n" +
    "        \n" +
    "        <f" + "ooter clas" + "s=\"post-fo" + "oter\">\n" +
    "          " + "  <a href=" + "\"/blog\" cl" + "ass=\"back-" + "link\">\n" +
    "          " + "      <svg" + " width=\"20" + "\" height=\"" + "20\" viewBo" + "x=\"0 0 24 " + "24\" fill=\"" + "none\" stro" + "ke=\"curren" + "tColor\" st" + "roke-width" + "=\"2\">\n" +
    "          " + "          " + "<path d=\"M" + "19 12H5M12" + " 19l-7-7 7" + "-7\" />\n" +
    "          " + "      </sv" + "g>\n" +
    "          " + "      Back" + " to Blog\n" +
    "          " + "  </a>\n" +
    "        </" + "footer>\n" +
    "    </div>" + "\n" +
    "</article>" + "\n" +
    "\n" +
    "<style>\n" +
    "    .blog-" + "post { min" + "-height: c" + "alc(100vh " + "- 72px); p" + "adding: va" + "r(--space-" + "4xl) 0; ba" + "ckground: " + "var(--colo" + "r-bg-prima" + "ry); }\n" +
    "    .blog-" + "post .cont" + "ainer { ma" + "x-width: 8" + "00px; }\n" +
    "    .back-" + "link { dis" + "play: inli" + "ne-flex; a" + "lign-items" + ": center; " + "gap: var(-" + "-space-sm)" + "; color: v" + "ar(--color" + "-text-seco" + "ndary); fo" + "nt-size: v" + "ar(--font-" + "size-sm); " + "font-weigh" + "t: 500; ma" + "rgin-botto" + "m: var(--s" + "pace-xl); " + "transition" + ": color va" + "r(--transi" + "tion-fast)" + "; }\n" +
    "    .back-" + "link:hover" + " { color: " + "var(--colo" + "r-accent);" + " }\n" +
    "    .post-" + "header { m" + "argin-bott" + "om: var(--" + "space-2xl)" + "; }\n" +
    "    .post-" + "meta { dis" + "play: flex" + "; align-it" + "ems: cente" + "r; gap: va" + "r(--space-" + "md); margi" + "n-bottom: " + "var(--spac" + "e-lg); fle" + "x-wrap: wr" + "ap; }\n" +
    "    .post-" + "meta time " + "{ font-siz" + "e: var(--f" + "ont-size-s" + "m); color:" + " var(--col" + "or-text-mu" + "ted); }\n" +
    "    .post-" + "tags { dis" + "play: flex" + "; gap: var" + "(--space-x" + "s); flex-w" + "rap: wrap;" + " }\n" +
    "    .tag {" + " font-size" + ": var(--fo" + "nt-size-xs" + "); padding" + ": var(--sp" + "ace-xs) va" + "r(--space-" + "sm); backg" + "round: rgb" + "a(59, 130," + " 246, 0.15" + "); color: " + "var(--colo" + "r-accent-l" + "ight); bor" + "der-radius" + ": var(--ra" + "dius-sm); " + "font-weigh" + "t: 500; }\n" +
    "    .post-" + "title { fo" + "nt-size: v" + "ar(--font-" + "size-4xl);" + " font-weig" + "ht: 700; l" + "ine-height" + ": 1.2; col" + "or: var(--" + "color-text" + "-primary);" + " }\n" +
    "    .post-" + "content { " + "color: var" + "(--color-t" + "ext-second" + "ary); line" + "-height: 1" + ".8; font-s" + "ize: var(-" + "-font-size" + "-lg); }\n" +
    "    .post-" + "content :g" + "lobal(h1)," + " .post-con" + "tent :glob" + "al(h2), .p" + "ost-conten" + "t :global(" + "h3) { colo" + "r: var(--c" + "olor-text-" + "primary); " + "margin-top" + ": var(--sp" + "ace-2xl); " + "margin-bot" + "tom: var(-" + "-space-md)" + "; font-wei" + "ght: 600; " + "}\n" +
    "    .post-" + "content :g" + "lobal(h1) " + "{ font-siz" + "e: var(--f" + "ont-size-3" + "xl); }\n" +
    "    .post-" + "content :g" + "lobal(h2) " + "{ font-siz" + "e: var(--f" + "ont-size-2" + "xl); }\n" +
    "    .post-" + "content :g" + "lobal(h3) " + "{ font-siz" + "e: var(--f" + "ont-size-x" + "l); }\n" +
    "    .post-" + "content :g" + "lobal(p) {" + " margin-bo" + "ttom: var(" + "--space-lg" + "); }\n" +
    "    .post-" + "content :g" + "lobal(a) {" + " color: va" + "r(--color-" + "accent-lig" + "ht); text-" + "decoration" + ": underlin" + "e; }\n" +
    "    .post-" + "content :g" + "lobal(ul)," + " .post-con" + "tent :glob" + "al(ol) { m" + "argin-bott" + "om: var(--" + "space-lg);" + " padding-l" + "eft: var(-" + "-space-xl)" + "; }\n" +
    "    .post-" + "content :g" + "lobal(li) " + "{ margin-b" + "ottom: var" + "(--space-s" + "m); }\n" +
    "    .post-" + "content :g" + "lobal(bloc" + "kquote) { " + "border-lef" + "t: 3px sol" + "id var(--c" + "olor-accen" + "t); backgr" + "ound: rgba" + "(59, 130, " + "246, 0.1);" + " padding: " + "var(--spac" + "e-md) var(" + "--space-lg" + "); margin:" + " var(--spa" + "ce-lg) 0; " + "border-rad" + "ius: 0 var" + "(--radius-" + "lg) var(--" + "radius-lg)" + " 0; font-s" + "tyle: ital" + "ic; }\n" +
    "    .post-" + "content :g" + "lobal(stro" + "ng) { colo" + "r: var(--c" + "olor-text-" + "primary); " + "font-weigh" + "t: 600; }\n" +
    "    .post-" + "content :g" + "lobal(em) " + "{ font-sty" + "le: italic" + "; }\n" +
    "    .post-" + "content :g" + "lobal(hr) " + "{ border: " + "none; bord" + "er-top: 1p" + "x solid va" + "r(--color-" + "border); m" + "argin: var" + "(--space-2" + "xl) 0; }\n" +
    "    .post-" + "footer { m" + "argin-top:" + " var(--spa" + "ce-4xl); p" + "adding-top" + ": var(--sp" + "ace-xl); b" + "order-top:" + " 1px solid" + " var(--col" + "or-border)" + "; }\n" +
    "</style>\n"

  lemma HeadPieces0()
    ensures Refuted(H00, ContentMarker, 1, 17)
    ensures Refuted(H01, ContentMarker, 1, 17)
    ensures Refuted(H02, ContentMarker, 1, 17)
  {
  }

  lemma HeadPieces1()
    ensures Refuted(H03, ContentMarker, 1, 17)
    ensures Refuted(H04, ContentMarker, 1, 17)
    ensures Refuted(H05, ContentMarker, 1, 17)
  {
  }

  lemma HeadPieces2()
    ensures Refuted(H06, ContentMarker, 1, 17)
    ensures Refuted(H07, ContentMarker, 1, 17)
    ensures Refuted(H08, ContentMarker, 1, 17)
  {
  }

  lemma HeadPieces3()
    ensures Refuted(H09, ContentMarker, 1, 17)
    ensures Refuted(H10, ContentMarker, 1, 17)
    ensures Refuted(H11, ContentMarker, 1, 17)
  {
  }

  lemma HeadPieces4()
    ensures Refuted(H12, ContentMarker, 1, 17)
    ensures Refuted(H13, ContentMarker, 1, 17)
    ensures Refuted(H14, ContentMarker, 1, 17)
  {
  }

  lemma HeadPieces5()
    ensures Refuted(H15, ContentMarker, 1, 17)
    ensures Refuted(H16, ContentMarker, 1, 17)
    ensures Refuted(H17, ContentMarker, 1, 17)
  {
  }

  lemma HeadPieces6()
    ensures Refuted(H18, ContentMarker, 1, 17)
    ensures Refuted(H19, ContentMarker, 1, 17)
    ensures Refuted(H20, ContentMarker, 1, 17)
  {
  }

  lemma HeadPieces7()
    ensures Refuted(H21, ContentMarker, 1, 17)
    ensures Refuted(H22, ContentMarker, 1, 17)
    ensures Refuted(H23, ContentMarker, 1, 17)
  {
  }

  lemma HeadPieces8()
    ensures Refuted(H24, ContentMarker, 1, 17)
    ensures Refuted(H25, ContentMarker, 1, 17)
    ensures Refuted(H26, ContentMarker, 1, 17)
  {
  }

  lemma HeadPieces9()
    ensures Refuted(H27, ContentMarker, 1, 17)
    ensures Refuted(H28, ContentMarker, 1, 17)
    ensures Refuted(H29, ContentMarker, 1, 17)
  {
  }

  lemma HeadPieces10()
    ensures Refuted(H30, ContentMarker, 1, 17)
    ensures Refuted(H31, ContentMarker, 1, 17)
    ensures Refuted(H32, ContentMarker, 1, 17)
  {
  }

  lemma HeadPieces11()
    ensures Refuted(H33, ContentMarker, 1, 17)
    ensures Refuted(H34, ContentMarker, 1, 17)
    ensures Refuted(H35, ContentMarker, 1, 17)
  {
  }

  lemma HeadPieces12()
    ensures Refuted(H36, ContentMarker, 1, 17)
    ensures Refuted(H37, ContentMarker, 1, 17)
    ensures Refuted(H38, ContentMarker, 1, 17)
  {
  }

  lemma HeadPieces13()
    ensures Refuted(H39, ContentMarker, 1, 17)
    ensures Refuted(H40, ContentMarker, 1, 17)
    ensures Refuted(H41, ContentMarker, 1, 17)
  {
  }

  lemma HeadPieces14()
    ensures Refuted(H42, ContentMarker, 1, 17)
    ensures Refuted(H43, ContentMarker, 1, 17)
  {
  }

  lemma Stage0()
    ensures Refuted(S0, ContentMarker, 1, 17)
  {
    HeadPieces0();
    HeadPieces1();
    HeadPieces2();
    var acc := H00;
    RefutedConcat(acc, H01, ContentMarker, 1, 17);
    acc := acc + H01;
    RefutedConcat(acc, H02, ContentMarker, 1, 17);
    acc := acc + H02;
    RefutedConcat(acc, H03, ContentMarker, 1, 17);
    acc := acc + H03;
    RefutedConcat(acc, H04, ContentMarker, 1, 17);
    acc := acc + H04;
    RefutedConcat(acc, H05, ContentMarker, 1, 17);
    acc := acc + H05;
    RefutedConcat(acc, H06, ContentMarker, 1, 17);
    acc := acc + H06;
    RefutedConcat(acc, H07, ContentMarker, 1, 17);
    acc := acc + H07;
  }

  lemma Stage1()
    ensures Refuted(S1, ContentMarker, 1, 17)
  {
    HeadPieces2();
    HeadPieces3();
    HeadPieces4();
    HeadPieces5();
    var acc := H08;
    RefutedConcat(acc, H09, ContentMarker, 1, 17);
    acc := acc + H09;
    RefutedConcat(acc, H10, ContentMarker, 1, 17);
    acc := acc + H10;
    RefutedConcat(acc, H11, ContentMarker, 1, 17);
    acc := acc + H11;
    RefutedConcat(acc, H12, ContentMarker, 1, 17);
    acc := acc + H12;
    RefutedConcat(acc, H13, ContentMarker, 1, 17);
    acc := acc + H13;
    RefutedConcat(acc, H14, ContentMarker, 1, 17);
    acc := acc + H14;
    RefutedConcat(acc, H15, ContentMarker, 1, 17);
    acc := acc + H15;
  }

  lemma Stage2()
    ensures Refuted(S2, ContentMarker, 1, 17)
  {
    HeadPieces5();
    HeadPieces6();
    HeadPieces7();
    var acc := H16;
    RefutedConcat(acc, H17, ContentMarker, 1, 17);
    acc := acc + H17;
    RefutedConcat(acc, H18, ContentMarker, 1, 17);
    acc := acc + H18;
    RefutedConcat(acc, H19, ContentMarker, 1, 17);
    acc := acc + H19;
    RefutedConcat(acc, H20, ContentMarker, 1, 17);
    acc := acc + H20;
    RefutedConcat(acc, H21, ContentMarker, 1, 17);
    acc := acc + H21;
    RefutedConcat(acc, H22, ContentMarker, 1, 17);
    acc := acc + H22;
    RefutedConcat(acc, H23, ContentMarker, 1, 17);
    acc := acc + H23;
  }

  lemma Stage3()
    ensures Refuted(S3, ContentMarker, 1, 17)
  {
    HeadPieces8();
    HeadPieces9();
    HeadPieces10();
    var acc := H24;
    RefutedConcat(acc, H25, ContentMarker, 1, 17);
    acc := acc + H25;
    RefutedConcat(acc, H26, ContentMarker, 1, 17);
    acc := acc + H26;
    RefutedConcat(acc, H27, ContentMarker, 1, 17);
    acc := acc + H27;
    RefutedConcat(acc, H28, ContentMarker, 1, 17);
    acc := acc + H28;
    RefutedConcat(acc, H29, ContentMarker, 1, 17);
    acc := acc + H29;
    RefutedConcat(acc, H30, ContentMarker, 1, 17);
    acc := acc + H30;
    RefutedConcat(acc, H31, ContentMarker, 1, 17);
    acc := acc + H31;
  }

  lemma Stage4()
    ensures Refuted(S4, ContentMarker, 1, 17)
  {
    HeadPieces10();
    HeadPieces11();
    HeadPieces12();
    HeadPieces13();
    var acc := H32;
    RefutedConcat(acc, H33, ContentMarker, 1, 17);
    acc := acc + H33;
    RefutedConcat(acc, H34, ContentMarker, 1, 17);
    acc := acc + H34;
    RefutedConcat(acc, H35, ContentMarker, 1, 17);
    acc := acc + H35;
    RefutedConcat(acc, H36, ContentMarker, 1, 17);
    acc := acc + H36;
    RefutedConcat(acc, H37, ContentMarker, 1, 17);
    acc := acc + H37;
    RefutedConcat(acc, H38, ContentMarker, 1, 17);
    acc := acc + H38;
    RefutedConcat(acc, H39, ContentMarker, 1, 17);
    acc := acc + H39;
  }

  lemma Stage5()
    ensures Refuted(S5, ContentMarker, 1, 17)
  {
    HeadPieces13();
    HeadPieces14();
    var acc := H40;
    RefutedConcat(acc, H41, ContentMarker, 1, 17);
    acc := acc + H41;
    RefutedConcat(acc, H42, ContentMarker, 1, 17);
    acc := acc + H42;
    RefutedConcat(acc, H43, ContentMarker, 1, 17);
    acc := acc + H43;
  }

  /** No `<` in the markup before the content division can begin the
      content marker: each is followed by something other than `d`, or by a
      `<div class="...` naming another class. */
  lemma PageHeadRefuted()
    ensures Refuted(PageHead, ContentMarker, 1, 17)
  {
    Stage0();
    Stage1();
    Stage2();
    Stage3();
    Stage4();
    Stage5();
    var acc := S0;
    RefutedConcat(acc, S1, ContentMarker, 1, 17);
    acc := acc + S1;
    RefutedConcat(acc, S2, ContentMarker, 1, 17);
    acc := acc + S2;
    RefutedConcat(acc, S3, ContentMarker, 1, 17);
    acc := acc + S3;
    RefutedConcat(acc, S4, ContentMarker, 1, 17);
    acc := acc + S4;
    RefutedConcat(acc, S5, ContentMarker, 1, 17);
    acc := acc + S5;
  }
}
