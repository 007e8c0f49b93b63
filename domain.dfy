/** The records the handlers pass around: social platforms, post statuses, posts and
    clients ("brand DNA"), with the fields the code reads and writes. */
module Domain {
  import opened Wrappers

  datatype SocialPlatform = Instagram | Facebook | LinkedIn | Twitter | YouTube

  /** A post's place in the approval workflow. */
  datatype PostStatus = Draft | Review | Approved | Scheduled | Published

  /** A post as stored: `scheduledDate` is a time value in milliseconds since the epoch. */
  datatype Post = Post(
    id: string,
    clientId: string,
    title: string,
    content: string,
    image: string,
    scheduledDate: int,
    status: PostStatus,
    platforms: seq<SocialPlatform>,
    author: string)

  datatype SocialLinks = SocialLinks(instagram: string, facebook: string, linkedin: string, youtube: string)

  /** A client brand and the context the caption generator is given about it. */
  datatype Client = Client(
    id: string,
    name: string,
    industry: string,
    logo: string,
    active: bool,
    connectedPlatforms: seq<SocialPlatform>,
    nextPost: Option<int>,
    website: string,
    socialLinks: SocialLinks,
    brandColor: string,
    brandColorSecondary: string,
    brandColorTertiary: string,
    brandStyle: string,
    brandbook: string,
    brandbookName: string,
    description: string,
    targetAudience: string,
    toneOfVoice: string,
    contentPillars: seq<string>,
    avoidTerms: string,
    customHashtags: string)
}
