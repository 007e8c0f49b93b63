/** The post-scheduling form: the platform checklist and what is sent when the form is
    submitted. Whether the scheduling callback resolves or rejects is a parameter. */
module PostScheduling {
  import opened Wrappers
  import Seqs

  const Platforms: seq<string> := ["Instagram", "TikTok", "Twitter", "LinkedIn"]

  datatype SchedulingForm = SchedulingForm(
    caption: string,
    scheduledAt: string,
    selectedPlatforms: seq<string>,
    isSubmitting: bool)

  /** The form as it opens; `scheduledAt` is the current time written as `YYYY-MM-DDTHH:mm`. */
  function InitialForm(scheduledAt: string): (f: SchedulingForm)
    ensures f.caption == "" && !f.isSubmitting
    ensures f.selectedPlatforms == Platforms[..2]
  {
    SchedulingForm("", scheduledAt, ["Instagram", "TikTok"], false)
  }

  /** `togglePlatform`: a selected platform is removed (every occurrence) and the others keep
      their order; an unselected one is appended at the end; nothing else in the form changes. */
  function TogglePlatform(form: SchedulingForm, platform: string): (r: SchedulingForm)
    ensures platform in form.selectedPlatforms ==>
              platform !in r.selectedPlatforms &&
              r.selectedPlatforms == Seqs.Without(form.selectedPlatforms, platform)
    ensures platform !in form.selectedPlatforms ==> r.selectedPlatforms == form.selectedPlatforms + [platform]
    ensures r.(selectedPlatforms := form.selectedPlatforms) == form
  {
    Seqs.ToggleShape(form.selectedPlatforms, platform);
    form.(selectedPlatforms := Seqs.Toggle(form.selectedPlatforms, platform))
  }

  /** Toggling a platform twice restores which platforms are selected; an unselected platform
      toggled twice restores the list exactly, a selected one moves to the end. */
  lemma TogglePlatformTwice(form: SchedulingForm, platform: string)
    ensures forall q :: q in TogglePlatform(TogglePlatform(form, platform), platform).selectedPlatforms <==>
                        q in form.selectedPlatforms
    ensures platform !in form.selectedPlatforms ==> TogglePlatform(TogglePlatform(form, platform), platform) == form
    ensures platform in form.selectedPlatforms ==>
              TogglePlatform(TogglePlatform(form, platform), platform).selectedPlatforms ==
              Seqs.Without(form.selectedPlatforms, platform) + [platform]
  {
    Seqs.ToggleTwice(form.selectedPlatforms, platform);
  }

  /** `caption || aiCaption || 'Post sem legenda'`: the typed caption, else the AI caption, else a
      placeholder; never empty. */
  function SubmittedCaption(caption: string, aiCaption: Option<string>): (r: string)
    ensures r != ""
    ensures caption != "" ==> r == caption
    ensures caption == "" && aiCaption.Some? && aiCaption.value != "" ==> r == aiCaption.value
    ensures caption == "" && (aiCaption.None? || aiCaption.value == "") ==> r == "Post sem legenda"
  {
    if caption != "" then caption
    else if aiCaption.Some? && aiCaption.value != "" then aiCaption.value
    else "Post sem legenda"
  }

  /** What `onSchedule` receives. */
  datatype ScheduleRequest = ScheduleRequest(
    caption: string,
    scheduledAt: string,
    platforms: seq<string>,
    aiCaption: Option<string>)

  datatype SubmitOutcome = SubmitOutcome(request: ScheduleRequest, form: SchedulingForm)

  /** `handleSubmit`: sends the caption with its fallbacks, the date and the selected platforms.
      When the callback resolves the form is no longer submitting and its caption is cleared;
      when it rejects, nothing after the `await` runs, so the form stays submitting with its
      caption. The date and the platforms are kept either way. */
  function HandleSubmit(form: SchedulingForm, aiCaption: Option<string>, scheduled: bool): (out: SubmitOutcome)
    ensures out.request.caption == SubmittedCaption(form.caption, aiCaption)
    ensures out.request.scheduledAt == form.scheduledAt && out.request.platforms == form.selectedPlatforms
    ensures out.request.aiCaption == aiCaption
    ensures scheduled ==> out.form.caption == "" && !out.form.isSubmitting
    ensures !scheduled ==> out.form.caption == form.caption && out.form.isSubmitting
    ensures out.form.scheduledAt == form.scheduledAt && out.form.selectedPlatforms == form.selectedPlatforms
  {
    var request := ScheduleRequest(SubmittedCaption(form.caption, aiCaption), form.scheduledAt, form.selectedPlatforms, aiCaption);
    var submitting := form.(isSubmitting := true);
    if scheduled then SubmitOutcome(request, submitting.(isSubmitting := false, caption := ""))
    else SubmitOutcome(request, submitting)
  }

  /** After a completed submit the next one falls back to the AI caption or the placeholder,
      with the same date and platforms. */
  lemma SubmitAgainUsesFallback(form: SchedulingForm, aiCaption: Option<string>, scheduled: bool)
    ensures var after := HandleSubmit(form, aiCaption, true).form;
            HandleSubmit(after, aiCaption, scheduled).request ==
            HandleSubmit(form.(caption := ""), aiCaption, scheduled).request
  {
  }
}
