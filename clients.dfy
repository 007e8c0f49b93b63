/** The client ("brand DNA") screen: the edit form and the rules applied when it is saved, the
    search over the client list, and the panel where social platforms are connected and
    disconnected. The signed-in user's id and the current time are parameters; the store
    write is left to the caller. */
module Clients {
  import opened Wrappers
  import opened Domain
  import Seqs
  import opened Text

  const BrandStyles: seq<string> := [
    "Minimalista e Limpo", "Corporativo e Sério", "Vibrante e Colorido", "Luxuoso e Elegante",
    "Tecnológico e Moderno", "Rústico e Natural", "Jovem e Descolado"]

  const ToneOptions: seq<string> := [
    "Profissional e Autoritário", "Amigável e Próximo", "Engraçado e Sarcástico",
    "Inspirador e Motivacional", "Educativo e Técnico", "Luxuoso e Exclusivo"]

  /** JavaScript's `s || fallback` on strings: the empty string is falsy. */
  function OrElse(s: string, fallback: string): string
  {
    if s != "" then s else fallback
  }

  /** The fields of the client form, as typed or uploaded. */
  datatype ClientForm = ClientForm(
    name: string,
    industry: string,
    description: string,
    logoPreview: string,
    website: string,
    instagram: string,
    facebook: string,
    linkedin: string,
    youtube: string,
    brandColor: string,
    brandColorSecondary: string,
    brandColorTertiary: string,
    brandStyle: string,
    brandbookFile: string,
    brandbookName: string,
    targetAudience: string,
    toneOfVoice: string,
    contentPillarsInput: string,
    avoidTerms: string,
    customHashtags: string,
    selectedPlatforms: seq<SocialPlatform>)

  /** The form after `resetForm`, as the add dialog opens it. */
  function ResetForm(): (f: ClientForm)
    ensures f.name == "" && f.industry == "" && f.selectedPlatforms == []
  {
    ClientForm("", "", "", "", "", "", "", "", "", "#F95500", "#1F2937", "#F3F4F6", BrandStyles[0],
               "", "", "", ToneOptions[0], "", "", "", [])
  }

  /** The form as the edit dialog opens it for `c`: empty colours, style and tone take their
      defaults, and the content pillars are joined with ", ". */
  function OpenEditForm(c: Client): (f: ClientForm)
    ensures f.name == c.name && f.industry == c.industry && f.logoPreview == c.logo
    ensures f.selectedPlatforms == c.connectedPlatforms
    ensures f.contentPillarsInput == Join(c.contentPillars, ", ")
    ensures f.brandColor != "" && (c.brandColor != "" ==> f.brandColor == c.brandColor)
    ensures f.brandStyle != "" && (c.brandStyle != "" ==> f.brandStyle == c.brandStyle)
    ensures f.toneOfVoice != "" && (c.toneOfVoice != "" ==> f.toneOfVoice == c.toneOfVoice)
  {
    ClientForm(
      c.name, c.industry, c.description, c.logo, c.website,
      c.socialLinks.instagram, c.socialLinks.facebook, c.socialLinks.linkedin, c.socialLinks.youtube,
      OrElse(c.brandColor, "#F95500"), OrElse(c.brandColorSecondary, "#1F2937"),
      OrElse(c.brandColorTertiary, "#F3F4F6"), OrElse(c.brandStyle, BrandStyles[0]),
      c.brandbook, c.brandbookName, c.targetAudience, OrElse(c.toneOfVoice, ToneOptions[0]),
      Join(c.contentPillars, ", "), c.avoidTerms, c.customHashtags, c.connectedPlatforms)
  }

  /** Trims each comma-separated piece and drops the empty ones. */
  function Pillars(pieces: seq<string>): (r: seq<string>)
    ensures forall p | p in r :: p != "" && IsTrimmed(p)
  {
    if pieces == [] then []
    else (if Trim(pieces[0]) != "" then [Trim(pieces[0])] else []) + Pillars(pieces[1..])
  }

  /** `contentPillarsInput.split(',').map(s => s.trim()).filter(s => s !== '')`. */
  function ParsePillars(input: string): (r: seq<string>)
    ensures forall p | p in r :: p != "" && IsTrimmed(p)
  {
    Pillars(Split(input, ','))
  }

  /** Content pillars as the form can give them back: non-empty, trimmed, without commas. */
  predicate CleanPillars(ps: seq<string>)
  {
    forall p | p in ps :: p != "" && IsTrimmed(p) && ',' !in p
  }

  /** No parsed pillar contains a comma, so parsed pillars are always clean. */
  lemma {:induction false} ParsedPillarsAreClean(input: string)
    ensures CleanPillars(ParsePillars(input))
  {
    PillarsOfCommaFree(Split(input, ','));
  }

  lemma {:induction false} PillarsOfCommaFree(pieces: seq<string>)
    requires forall piece | piece in pieces :: ',' !in piece
    ensures forall p | p in Pillars(pieces) :: ',' !in p
  {
    if pieces != [] {
      PillarsOfCommaFree(pieces[1..]);
      assert pieces[0] in pieces;
      TrimKeepsNonSpace(pieces[0]);
    }
  }

  /** The pillars follow the input's order: the first piece's pillar comes before the rest's. */
  lemma FirstPillarFirst(first: string, rest: string)
    requires ',' !in first
    ensures ParsePillars(first + "," + rest) == Pillars([first]) + ParsePillars(rest)
  {
    SplitAfterPiece(first, ',', rest);
    assert first + "," + rest == first + [','] + rest;
    PillarsCons(first, Split(rest, ','));
  }

  lemma PillarsCons(piece: string, pieces: seq<string>)
    ensures Pillars([piece] + pieces) == Pillars([piece]) + Pillars(pieces)
  {
    assert ([piece] + pieces)[0] == piece;
    assert ([piece] + pieces)[1..] == pieces;
    assert [piece][1..] == [];
  }

  /** A blank after the comma, as `join(', ')` writes, does not change the pillars. */
  lemma {:induction false} LeadingBlankIgnored(s: string)
    ensures ParsePillars(" " + s) == ParsePillars(s)
  {
    var rest := Split(s, ',');
    assert (" " + s)[1..] == s;
    assert Split(" " + s, ',') == [" " + rest[0]] + rest[1..];
    TrimAfterSpaces(" ", rest[0]);
    assert ([" " + rest[0]] + rest[1..])[1..] == rest[1..];
  }

  lemma SinglePillar(p: string)
    requires p != "" && IsTrimmed(p) && ',' !in p
    ensures Pillars([p]) == [p]
    ensures ParsePillars(p) == [p]
  {
    var pieces := Split(p, ',');
    SplitWhole(p, ',');
    TrimTrimmed(p);
    assert pieces[0] == p && pieces[1..] == [];
    assert Pillars(pieces) == [Trim(p)] + Pillars([]);
  }

  /** Joining clean pillars with ", " (as the edit dialog does) and parsing the text again gives
      the same pillars back. */
  lemma {:induction false} PillarsRoundTrip(ps: seq<string>)
    requires CleanPillars(ps)
    ensures ParsePillars(Join(ps, ", ")) == ps
  {
    if |ps| == 0 {
      NoPillars();
    } else if |ps| == 1 {
      assert ps[0] in ps;
      assert Join(ps, ", ") == ps[0];
      SinglePillar(ps[0]);
    } else if |ps| >= 2 {
      assert CleanPillars(ps[1..]) by {
        assert forall p | p in ps[1..] :: p in ps;
      }
      PillarsRoundTrip(ps[1..]);
      PillarsRoundTripStep(ps);
    }
  }

  /** An empty input has no pillars. */
  lemma NoPillars()
    ensures ParsePillars("") == []
  {
    assert Split("", ',') == [""];
    assert Trim("") == "";
    assert [""][1..] == [];
  }

  lemma PillarsRoundTripStep(ps: seq<string>)
    requires |ps| >= 2 && CleanPillars(ps)
    requires ParsePillars(Join(ps[1..], ", ")) == ps[1..]
    ensures ParsePillars(Join(ps, ", ")) == ps
  {
    var tail := Join(ps[1..], ", ");
    JoinWithBlank(ps);
    assert ps[0] in ps;
    FirstPillarFirst(ps[0], " " + tail);
    SinglePillar(ps[0]);
    LeadingBlankIgnored(tail);
    assert [ps[0]] + ps[1..] == ps;
  }

  lemma JoinWithBlank(ps: seq<string>)
    requires |ps| >= 2
    ensures Join(ps, ", ") == ps[0] + "," + (" " + Join(ps[1..], ", "))
  {
  }

  /** The logo shown for a client saved without an uploaded one: a picture seeded with the
      client's name. */
  function PlaceholderLogo(name: string): (r: string)
    ensures r != ""
    ensures |r| == |name| + 35 && r[27..27 + |name|] == name
  {
    "https://picsum.photos/seed/" + name + "/100/100"
  }
  /** Clients with different names get different placeholder logos. */
  lemma PlaceholderLogosDiffer(a: string, b: string)
    requires a != b
    ensures PlaceholderLogo(a) != PlaceholderLogo(b)
  {
    if |a| == |b| {
      assert PlaceholderLogo(a)[27..27 + |a|] == a;
    }
  }


  /** `handleSaveClient`: nothing is saved without a name, an industry and a signed-in user;
      otherwise the form becomes a client that keeps the edited client's id and next post (a
      new client takes the current time as its id), falls back to the placeholder logo, is
      active, and carries the parsed content pillars. */
  function SaveClient(form: ClientForm, userId: string, editing: Option<Client>, now: nat): (r: Option<Client>)
    ensures r.None? <==> form.name == "" || form.industry == "" || userId == ""
    ensures r.Some? ==> r.value.id == (if editing.Some? then editing.value.id else NatToString(now))
    ensures r.Some? ==> r.value.logo != "" &&
                        (form.logoPreview != "" ==> r.value.logo == form.logoPreview) &&
                        (form.logoPreview == "" ==> r.value.logo == PlaceholderLogo(form.name))
    ensures r.Some? ==> r.value.name == form.name && r.value.industry == form.industry && r.value.active
    ensures r.Some? ==> r.value.contentPillars == ParsePillars(form.contentPillarsInput)
    ensures r.Some? ==> r.value.connectedPlatforms == form.selectedPlatforms
    ensures r.Some? ==> r.value.nextPost == (if editing.Some? then editing.value.nextPost else None)
  {
    if form.name == "" || form.industry == "" || userId == "" then None
    else
      Some(Client(
        id := if editing.Some? then editing.value.id else NatToString(now),
        name := form.name,
        industry := form.industry,
        logo := OrElse(form.logoPreview, PlaceholderLogo(form.name)),
        active := true,
        connectedPlatforms := form.selectedPlatforms,
        nextPost := if editing.Some? then editing.value.nextPost else None,
        website := form.website,
        socialLinks := SocialLinks(form.instagram, form.facebook, form.linkedin, form.youtube),
        brandColor := form.brandColor,
        brandColorSecondary := form.brandColorSecondary,
        brandColorTertiary := form.brandColorTertiary,
        brandStyle := form.brandStyle,
        brandbook := form.brandbookFile,
        brandbookName := form.brandbookName,
        description := form.description,
        targetAudience := form.targetAudience,
        toneOfVoice := form.toneOfVoice,
        contentPillars := ParsePillars(form.contentPillarsInput),
        avoidTerms := form.avoidTerms,
        customHashtags := form.customHashtags))
  }

  /** Clients created at different times get different ids. */
  lemma NewClientIdsDiffer(form: ClientForm, userId: string, now1: nat, now2: nat)
    requires form.name != "" && form.industry != "" && userId != ""
    requires now1 != now2
    ensures SaveClient(form, userId, None, now1).value.id != SaveClient(form, userId, None, now2).value.id
  {
    if NatToString(now1) == NatToString(now2) {
      NatToStringInjective(now1, now2);
    }
  }

  /** A client whose fields the edit dialog shows as they are. */
  predicate ShownAsIs(c: Client)
  {
    c.name != "" && c.industry != "" && c.logo != "" && c.brandColor != "" &&
    c.brandColorSecondary != "" && c.brandColorTertiary != "" && c.brandStyle != "" &&
    c.toneOfVoice != "" && CleanPillars(c.contentPillars)
  }

  /** Opening a client in the edit dialog and saving without changes gives the same client back,
      marked active. */
  lemma EditWithoutChangesKeepsClient(c: Client, userId: string, now: nat)
    requires ShownAsIs(c) && userId != ""
    ensures SaveClient(OpenEditForm(c), userId, Some(c), now) == Some(c.(active := true))
  {
    PillarsRoundTrip(c.contentPillars);
  }

  /** A freshly reset form cannot be saved. */
  lemma ResetFormIsNotSaved(userId: string, editing: Option<Client>, now: nat)
    ensures SaveClient(ResetForm(), userId, editing, now).None?
  {
  }

  /** Whether the client's name or industry contains the search term, ignoring case. */
  predicate Matches(c: Client, searchTerm: string)
  {
    Contains(Lower(c.name), Lower(searchTerm)) || Contains(Lower(c.industry), Lower(searchTerm))
  }

  /** `filteredClients`: the clients whose lowercased name or industry contains the lowercased
      search term, in list order. */
  function FilterClients(clients: seq<Client>, searchTerm: string): (r: seq<Client>)
    ensures forall c | c in r :: c in clients && Matches(c, searchTerm)
    ensures forall c | c in clients && Matches(c, searchTerm) :: c in r
  {
    Seqs.Filter(clients, c => Matches(c, searchTerm))
  }

  /** An empty search keeps every client, in order. */
  lemma EmptySearchKeepsAll(clients: seq<Client>)
    ensures FilterClients(clients, "") == clients
  {
    forall c | c in clients
      ensures Matches(c, "")
    {
      ContainsEmpty(Lower(c.name));
    }
    Seqs.FilterKeepsAll(clients, c => Matches(c, ""));
  }

  /** The search ignores the case of the term. */
  lemma SearchIgnoresTermCase(clients: seq<Client>, searchTerm: string)
    ensures FilterClients(clients, Lower(searchTerm)) == FilterClients(clients, searchTerm)
  {
    LowerIdempotent(searchTerm);
    Seqs.FilterSameTest(clients, c => Matches(c, Lower(searchTerm)), c => Matches(c, searchTerm));
  }

  /** The search keeps the list order: it distributes over concatenation. */
  lemma SearchKeepsOrder(a: seq<Client>, b: seq<Client>, searchTerm: string)
    ensures FilterClients(a + b, searchTerm) == FilterClients(a, searchTerm) + FilterClients(b, searchTerm)
  {
    Seqs.FilterAppend(a, b, c => Matches(c, searchTerm));
  }

  /** The connections dialog: the platforms selected so far, the platform whose spinner is
      shown, and the platforms whose one-second connect timers have not fired yet, in the order
      they were started (all have the same delay, so they fire in that order). */
  datatype ConnectPanel = ConnectPanel(
    selected: seq<SocialPlatform>,
    loading: Option<SocialPlatform>,
    pending: seq<SocialPlatform>)

  /** `openConnectModal`: a copy of the client's connected platforms, no timer running. */
  function OpenConnect(c: Client): (panel: ConnectPanel)
    ensures panel.selected == c.connectedPlatforms && panel.pending == []
  {
    ConnectPanel(c.connectedPlatforms, None, [])
  }

  /** `handleTogglePlatform`: a connected platform is disconnected at once (every occurrence);
      an unconnected one gets the spinner and a timer that will connect it. */
  function TogglePlatform(panel: ConnectPanel, p: SocialPlatform): (r: ConnectPanel)
    ensures p in panel.selected ==> r == panel.(selected := Seqs.Without(panel.selected, p))
    ensures p !in panel.selected ==> r.selected == panel.selected && r.loading == Some(p) && r.pending == panel.pending + [p]
  {
    if p !in panel.selected then panel.(loading := Some(p), pending := panel.pending + [p])
    else panel.(selected := Seqs.Without(panel.selected, p))
  }

  /** The oldest timer fires as written: it appends its platform to the selection whether or
      not the platform is already there, and clears the spinner. */
  function TimerFiresAsWritten(panel: ConnectPanel): (r: ConnectPanel)
    ensures panel.pending == [] ==> r == panel
    ensures panel.pending != [] ==> r.selected == panel.selected + [panel.pending[0]] && r.pending == panel.pending[1..]
  {
    if panel.pending == [] then panel
    else ConnectPanel(panel.selected + [panel.pending[0]], None, panel.pending[1..])
  }

  /** Two clicks on an unconnected platform within the second before its timer fires start two
      timers, and the platform ends up connected twice. */
  lemma DoubleClickConnectsTwice()
    ensures var p0 := ConnectPanel([], None, []);
            var p1 := TogglePlatform(TogglePlatform(p0, Instagram), Instagram);
            TimerFiresAsWritten(TimerFiresAsWritten(p1)).selected == [Instagram, Instagram]
  {
    var p0 := ConnectPanel([], None, []);
    assert TogglePlatform(p0, Instagram).pending == [Instagram];
  }

  /** The oldest timer fires: its platform is connected unless it already is. */
  function TimerFires(panel: ConnectPanel): (r: ConnectPanel)
    ensures panel.pending == [] ==> r == panel
    ensures panel.pending != [] ==> r.pending == panel.pending[1..] && r.loading.None?
    ensures panel.pending != [] ==> forall q :: q in r.selected <==> q in panel.selected || q == panel.pending[0]
  {
    if panel.pending == [] then panel
    else
      var p := panel.pending[0];
      ConnectPanel(if p in panel.selected then panel.selected else panel.selected + [p], None, panel.pending[1..])
  }

  predicate NoDuplicates(s: seq<SocialPlatform>)
  {
    forall i, j | 0 <= i < j < |s| :: s[i] != s[j]
  }

  /** Toggling and timers keep the selection free of duplicates. */
  lemma {:induction false} PanelKeepsNoDuplicates(panel: ConnectPanel, p: SocialPlatform)
    requires NoDuplicates(panel.selected)
    ensures NoDuplicates(TogglePlatform(panel, p).selected)
    ensures NoDuplicates(TimerFires(panel).selected)
  {
    if p in panel.selected {
      WithoutKeepsNoDuplicates(panel.selected, p);
    }
  }

  lemma {:induction false} WithoutKeepsNoDuplicates(s: seq<SocialPlatform>, x: SocialPlatform)
    requires NoDuplicates(s)
    ensures NoDuplicates(Seqs.Without(s, x))
    decreases |s|
  {
    if s != [] {
      WithoutKeepsNoDuplicates(s[1..], x);
      var rest := Seqs.Without(s[1..], x);
      Seqs.FilterAppend([s[0]], s[1..], y => y != x);
      assert [s[0]] + s[1..] == s;
      assert s[0] !in s[1..];
    }
  }

  /** `saveConnections`: nothing without an open dialog and a signed-in user; otherwise the
      client with its connected platforms replaced by the selection and nothing else changed. */
  function SaveConnections(connecting: Option<Client>, userId: string, selected: seq<SocialPlatform>): (r: Option<Client>)
    ensures r.Some? <==> connecting.Some? && userId != ""
    ensures r.Some? ==> r.value.connectedPlatforms == selected &&
                        r.value.(connectedPlatforms := connecting.value.connectedPlatforms) == connecting.value
  {
    if connecting.None? || userId == "" then None
    else Some(connecting.value.(connectedPlatforms := selected))
  }

  /** Opening the dialog and saving without toggling anything stores the client unchanged. */
  lemma OpenThenSaveKeepsClient(c: Client, userId: string)
    requires userId != ""
    ensures SaveConnections(Some(c), userId, OpenConnect(c).selected) == Some(c)
  {
  }
}
