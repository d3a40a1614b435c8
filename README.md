# Neptune Tea API — a verified model of its store and request logic

Neptune Tea is a small tea-shop backend. It has a menu catalog that is
read-only, and it takes customer orders. This project models the part of it
that has behaviour worth stating:

- the database context, with its two tables (`MenuItems`, `Orders`) and the
  identities the store assigns;
- the drink categories, and how a category is written to a row and read back;
- the seed loader, which fills an empty menu table with a fixed 34-item
  catalog and otherwise does nothing;
- the three request handlers: list the menu, look it up by category, and
  create an order;
- the start-up sequence (create the schema if needed, then seed) that runs
  before any request is served.

Files, one module each:

| file | module | models |
|---|---|---|
| `wrappers.dfy` | `Wrappers` | `Option`, for null references and failed parses |
| `text.dfy` | `Text` | `Char.IsWhiteSpace`, `string.IsNullOrWhiteSpace`, trimming, ASCII ignore-case comparison, decimal rendering of an id |
| `categories.dfy` | `Categories` | `Models/Category.cs`: the enum, its ordinals, its names, the case-insensitive parser |
| `data.dfy` | `Data` | `Data/AppDbContext.cs`: the records, the category↔text conversion, the store class `AppDbContext` |
| `seeder.dfy` | `Seeder` | `Data/DataSeeder.cs`: the literal catalog and `SeedData` |
| `api.dfy` | `Api` | `Program.cs`: the category filter, order validation, the three handlers, start-up, serving requests |

The store is a class with fields `menuItems: seq<MenuItem>` and
`orders: seq<Order>`, plus two counters for the next identity of each table.
Its invariant `Valid()` says the identities are positive, strictly increasing
along each table, and below the next one to be handed out. Every method that
changes the store keeps `Valid()`. Each one states its new contents in terms
of the old ones, and says which table stays unchanged. `State()` gives the
store's contents as a value (`Tables`), so that seeding can also be stated
as a pure function, `Seeded`, with lemmas about it.

Prices are integer cents (5.50 is `550`). An order arrives as an
`OrderBody` whose `itemName` is an `Option<string>`, because the posted JSON
may leave it null. A response is `Ok(items)` (200), `BadRequest(error)`
(400) or `Created(location, order)` (201).

The seed list in `Data/DataSeeder.cs` has 34 entries: 8 milk tea classics,
8 fruit teas, 5 cheese teas, 6 special lattes and 7 seasonal specials. The
`MilkTea` category is declared but no catalog entry uses it.

## Model

| member | source | states |
|---|---|---|
| `Text.IsWhiteSpace` | NeptuneTeaAPI/Program.cs:81 | `Char.IsWhiteSpace`: the Unicode space, line and paragraph separators, U+0009 to U+000D and U+0085; specified through `Text.TrimEmptyIffWhiteSpace` |
| `Text.IsNullOrWhiteSpace` | NeptuneTeaAPI/Program.cs:81 | `string.IsNullOrWhiteSpace`: null, or every character white space; `Text.TrimEmptyIffWhiteSpace` shows it agrees with trimming to nothing |
| `Text.TrimEmptyIffWhiteSpace` | NeptuneTeaAPI/Program.cs:81 | a non-null name is null-or-white-space exactly when trimming it leaves the empty string |
| `Text.DecimalString` | NeptuneTeaAPI/Program.cs:94 | the interpolated id is one or more decimal digits, with no leading zero unless the id is 0 |
| `Text.DecimalRoundTrip` | NeptuneTeaAPI/Program.cs:94 | reading the rendered digits back gives the id |
| `Text.DecimalInjective` | NeptuneTeaAPI/Program.cs:94 | distinct ids render as distinct strings |
| `Text.EqualsIgnoreCase` | NeptuneTeaAPI/Program.cs:65 | the ignore-case comparison used by `Enum.TryParse(category, true, …)`: equal lengths and equal characters once ASCII letters are lowered; `Categories.ParseAnyCasing` and `Categories.NamesDistinctIgnoringCase` state what it gives the parser |
| `Categories.Ordinal` | NeptuneTeaAPI/Models/Category.cs:8-13 | the enum's underlying value; `Categories.OrdinalIsDeclarationPosition` and `Categories.OrdinalInjective` state its properties |
| `Categories.Name` | NeptuneTeaAPI/Models/Category.cs:8-13 | the member's name text; `Categories.NamesDistinctIgnoringCase` and `Categories.ParseName` state its properties |
| `Categories.Parse` | NeptuneTeaAPI/Program.cs:65 | `Enum.TryParse` with ignore-case, as whole-name matching over the six names; specified by `Categories.ParseSound`, `Categories.ParseAnyCasing` and `Categories.ParseName` |
| `Categories.ParseAmong` | NeptuneTeaAPI/Program.cs:65 | a result is a listed category whose whole name equals the input ignoring case; no result exactly when no listed name matches |
| `Categories.ExactlySixCategories` | NeptuneTeaAPI/Models/Category.cs:6-14 | there are exactly six categories, listed once each in declaration order |
| `Categories.OrdinalIsDeclarationPosition` | NeptuneTeaAPI/Models/Category.cs:8-13 | each category's ordinal is its position in the declaration, MilkTea = 0 through SeasonalSpecials = 5 |
| `Categories.OrdinalInjective` | NeptuneTeaAPI/Models/Category.cs:8-13 | distinct categories have distinct ordinals |
| `Categories.NamesDistinctIgnoringCase` | NeptuneTeaAPI/Models/Category.cs:8-13 | no two names are equal even ignoring case, so case-insensitive parsing is unambiguous |
| `Categories.NameLengthsDistinct` | NeptuneTeaAPI/Models/Category.cs:8-13 | the six names have six different lengths |
| `Categories.ParseAnyCasing` | NeptuneTeaAPI/Program.cs:65 | any casing of a category's name parses to that category |
| `Categories.ParseSound` | NeptuneTeaAPI/Program.cs:65-68 | a parsed category's name matches the input ignoring case; parsing fails exactly when no name matches |
| `Categories.ParseName` | NeptuneTeaAPI/Program.cs:65 | parsing a category's name gives back that category |
| `Categories.ParseMilkTeaIsWholeName` | NeptuneTeaAPI/Models/Category.cs:8-9 | "MilkTea" and "milktea" parse to MilkTea, not to MilkTeaClassics, whose name "MilkTea" is a prefix of |
| `Categories.ParseMilkTeaClassicsUpperCase` | NeptuneTeaAPI/Models/Category.cs:9 | "MILKTEACLASSICS" parses to MilkTeaClassics |
| `Categories.ParseRejectsOtherLengths` | NeptuneTeaAPI/Program.cs:65-68 | text of a length no name has does not parse |
| `Categories.ParseRejectsExamples` | NeptuneTeaAPI/Program.cs:65-68 | the bare prefix "Milk" and "not-a-category" do not parse |
| `Data.CategoryToProvider` | NeptuneTeaAPI/Data/AppDbContext.cs:41-43 | the text stored for a category; `Data.StoredCategoryIsName` and `Data.CategoryToProviderInjective` state its properties |
| `Data.CategoryFromProvider` | NeptuneTeaAPI/Data/AppDbContext.cs:41-43 | reading stored text back as a category; `Data.CategoryRoundTrip` shows it inverts `Data.CategoryToProvider` |
| `Data.StoredCategoryIsName` | NeptuneTeaAPI/Data/AppDbContext.cs:40-43 | the stored category value is the member's name text, never the digits of its ordinal |
| `Data.CategoryRoundTrip` | NeptuneTeaAPI/Data/AppDbContext.cs:41-43 | decoding the stored text of a category gives back that category |
| `Data.CategoryToProviderInjective` | NeptuneTeaAPI/Data/AppDbContext.cs:41-43 | distinct categories are stored as distinct strings |
| `Data.ToRow` | NeptuneTeaAPI/Data/AppDbContext.cs:36-43 | how a menu item is written as a row, with its category as text; `Data.RowRoundTrip` shows `Data.FromRow` inverts it |
| `Data.FromRow` | NeptuneTeaAPI/Data/AppDbContext.cs:36-43 | how a row is read back as a menu item, failing on unknown category text; `Data.RowRoundTrip` shows it inverts `Data.ToRow` |
| `Data.RowRoundTrip` | NeptuneTeaAPI/Data/AppDbContext.cs:36-43 | writing a menu item to its row and reading the row back gives the same item |
| `Data.NumberedKeepsIdsFresh` | NeptuneTeaAPI/Data/DataSeeder.cs:182-183 | appending a batch numbered from the next identity keeps every identity unique and below the next one |
| `Data.AppDbContext.constructor` | NeptuneTeaAPI/Data/AppDbContext.cs:24-29 | a newly created database has both tables empty and hands out identity 1 first |
| `Data.AppDbContext.HasMenuItems` | NeptuneTeaAPI/Data/DataSeeder.cs:20 | `MenuItems.Any()`: whether the menu table has a row; `Seeder.SeededNonEmptyUnchanged` and `Seeder.SeededEmptyIsCatalog` state the two branches it selects |
| `Data.AppDbContext.AddMenuItems` | NeptuneTeaAPI/Data/DataSeeder.cs:182-183 | the batch is appended in order, each item with the next identity; the orders table is unchanged |
| `Data.AppDbContext.AddOrder` | NeptuneTeaAPI/Program.cs:91-92 | exactly one order is appended, with an identity no earlier order has; the menu table is unchanged |
| `Seeder.Catalog` | NeptuneTeaAPI/Data/DataSeeder.cs:25-180 | the seed list entry by entry, prices in cents; its properties are in `Seeder.CatalogShape`, `Seeder.CatalogBlocks` and `Api.CatalogCategoryCounts` |
| `Seeder.Seeded` | NeptuneTeaAPI/Data/DataSeeder.cs:17-183 | the store after seeding, as a value; specified by `Seeder.SeededNonEmptyUnchanged`, `Seeder.SeededEmptyIsCatalog`, `Seeder.SeededKeepsOrders` and `Seeder.SeededIdempotent` |
| `Seeder.SeedData` | NeptuneTeaAPI/Data/DataSeeder.cs:17-184 | the store afterwards is `Seeded` of the store before, and stays valid |
| `Seeder.CatalogShape` | NeptuneTeaAPI/Data/DataSeeder.cs:25-180 | the catalog has 34 entries, none with an id yet, none in MilkTea, each with a non-empty name and a price from 550 to 725 cents |
| `Seeder.CatalogBlocks` | NeptuneTeaAPI/Data/DataSeeder.cs:27-179 | the catalog is five runs of one category each, of 8, 8, 5, 6 and 7 entries |
| `Seeder.SeededNonEmptyUnchanged` | NeptuneTeaAPI/Data/DataSeeder.cs:20-23 | when the menu table is non-empty, seeding leaves the entire store unchanged |
| `Seeder.SeededEmptyIsCatalog` | NeptuneTeaAPI/Data/DataSeeder.cs:25-183 | when the menu table is empty, afterwards it is exactly the catalog in listed order, numbered from the next identity |
| `Seeder.SeededKeepsOrders` | NeptuneTeaAPI/Data/DataSeeder.cs:182-183 | seeding never touches the orders table or its next identity |
| `Seeder.SeededIdempotent` | NeptuneTeaAPI/Data/DataSeeder.cs:20-23 | seeding twice gives the same store as seeding once |
| `Seeder.SeededNotEmpty` | NeptuneTeaAPI/Data/DataSeeder.cs:20-183 | after seeding the menu table is never empty |
| `Api.Where` | NeptuneTeaAPI/Program.cs:70-72 | soundness: every returned item has the requested category; the result is no longer than the table |
| `Api.WhereAppend` | NeptuneTeaAPI/Program.cs:70-72 | table order is kept: filtering a concatenation is the concatenation of the filtered parts |
| `Api.WhereComplete` | NeptuneTeaAPI/Program.cs:70-72 | completeness: each item of the category is returned as many times as it is in the table, and no other item is returned |
| `Api.WhereCoversTable` | NeptuneTeaAPI/Program.cs:63-72 | every item in the table is returned by the lookup of its own category, so the six lookups together cover the table |
| `Api.WhereNumbered` | NeptuneTeaAPI/Data/DataSeeder.cs:182-183 | assigning identities to a batch does not change how many of its items fall in a category |
| `Api.CatalogCategoryCounts` | NeptuneTeaAPI/Data/DataSeeder.cs:27-179 | the catalog has 0 MilkTea, 8 MilkTeaClassics, 8 FruitTea, 5 CheeseTea, 6 SpecialLattes and 7 SeasonalSpecials entries |
| `Api.FreshStoreFruitTeaLookup` | NeptuneTeaAPI/Program.cs:70-72 | on a freshly created and seeded store, the FruitTea lookup returns exactly 8 items, all FruitTea |
| `Api.ValidateOrder` | NeptuneTeaAPI/Program.cs:81-89 | the two checks, name first, giving the error message or none; specified against trimming by `Api.ValidateOrderErrors` and `Api.ValidateOrderAccepts` |
| `Api.ValidateOrderErrors` | NeptuneTeaAPI/Program.cs:81-89 | the name error is reported exactly when the name is null or blank after trimming, whatever the quantity; the quantity error exactly when the name is fine and the quantity is at most 0 |
| `Api.ValidateOrderAccepts` | NeptuneTeaAPI/Program.cs:81-89 | a body passes validation exactly when it has a name that is not blank after trimming and a quantity of at least 1 |
| `Api.ValidateOrderExample` | NeptuneTeaAPI/Program.cs:81-89 | two "Taro Milk Tea" pass; a blank or null name, or a zero quantity, gets the matching error |
| `Api.OrderLocation` | NeptuneTeaAPI/Program.cs:94 | the Location header "/api/orders/{id}"; `Api.OrderLocationRoundTrip` shows the id reads back from it |
| `Api.OrderLocationRoundTrip` | NeptuneTeaAPI/Program.cs:94 | the location is "/api/orders/" followed by digits that read back as the order's id |
| `Api.GetAllMenuItems` | NeptuneTeaAPI/Program.cs:55-59 | the response is the menu table as stored, and nothing changes |
| `Api.GetMenuItemsByCategory` | NeptuneTeaAPI/Program.cs:63-75 | text that matches no category name in any casing gets "Invalid category: " + the text; text that matches a category gets that category's items in table order; nothing changes |
| `Api.CreateOrder` | NeptuneTeaAPI/Program.cs:79-95 | a rejected body gets its validation error and leaves the store unchanged; an accepted one appends exactly one acceptable order with a fresh id and returns its location; the menu table is unchanged |
| `Api.EnsureCreated` | NeptuneTeaAPI/Program.cs:36 | an existing database is kept as it is; a missing one is created with both tables empty |
| `Api.Startup` | NeptuneTeaAPI/Program.cs:33-38 | schema creation then seeding: the store afterwards is `Seeded` of what was there, and its menu table is not empty |
| `Api.Handle` | NeptuneTeaAPI/Program.cs:55-95 | each request gets what its handler promises; the menu table is unchanged; the orders table gains exactly the order the response reports as created, and only for an accepted order post; the menu's identity counter stays, and the orders' counter advances by one exactly for an accepted post, so a GET or a rejected post changes nothing at all |
| `Api.CreatedOrders` | NeptuneTeaAPI/Program.cs:91-94 | the orders a run of responses reports as created, in request order; never more than there were requests |
| `Api.Serve` | NeptuneTeaAPI/Program.cs:55-97 | over a run of requests the menu table never changes; every response is what its handler promises; the orders table becomes the old one followed by exactly the orders the responses report as created, in request order, each acceptable and carrying its request's name and quantity; the menu's identity counter stays and the orders' counter advances by the number of accepted posts |
| `Api.Run` | NeptuneTeaAPI/Program.cs:33-97 | start-up finishes before the first request, so every request sees the seeded, non-empty menu, which then stays as seeded; the orders table ends as what was there followed by the created orders, in request order; the menu's identity counter is the one seeding left, and the orders' counter is the starting one plus the number of accepted posts |

## Left out

- Hosting and plumbing are not modelled: the web host, Swagger/OpenAPI, the CORS policy and console output (NeptuneTeaAPI/Program.cs:6-29, 42-51, 101-104). They are framework configuration.
- The SQLite file, change tracking and the inside of `EnsureCreated` are not modelled. The store is two in-memory sequences, and `EnsureCreated` either keeps the existing store or creates an empty one.
- The store hands out identities from a counter per table, starting at 1. SQLite's own choice of row id is not modelled beyond "greater than every id already used".
- `async`/`await` and concurrent requests are not modelled, and neither is the seeding race between several instances that start at once on one database file. Requests are handled one after another.
- The server's endless request loop (`app.Run()`) is modelled as a finite sequence of requests.
- Categories.Parse, Text.EqualsIgnoreCase: only whole-name, ASCII case-insensitive matching is modelled. `Enum.TryParse` also accepts numeric strings (even undefined values such as "42"), surrounding white space, comma-separated lists and some non-ASCII case mappings. These are library behaviour, not the application's.
- Data.CategoryFromProvider, Data.FromRow: decoding stored text uses the same parser and gives `None` for unknown text. The ORM's own fallback for unknown text (numeric values, the default member) is not modelled. Rows written by the model always decode.
- Store writes are assumed to succeed. `await db.SaveChangesAsync()` (NeptuneTeaAPI/Program.cs:92) and `context.SaveChanges()` (NeptuneTeaAPI/Data/DataSeeder.cs:183) can throw, for example when the store is unavailable or a posted `Id` collides with a stored one. The host then answers 500 and nothing is stored. That outcome is not modelled: `Data.AppDbContext.AddOrder` and `Data.AppDbContext.AddMenuItems` always succeed, so the `Created` branch of `Api.CreateOrder` and `Api.Handle` cannot fail.
- Prices are integer cents, not `decimal`.
- Response bodies and status codes are reduced to `Ok`, `BadRequest(message)` and `Created(location, order)`. JSON serialisation is not modelled.
- An `Id` supplied in the posted order body is not modelled: the store always assigns the new order's id.
- Result and identity order are modelling choices. The queries at NeptuneTeaAPI/Program.cs:57 and :70-72 have no ordering clause, and a bulk insert does not promise that identities follow list order (NeptuneTeaAPI/Data/DataSeeder.cs:182-183). The model returns rows in insertion order and numbers a batch in list order, because that is what the database and the ORM do in practice.
- The 32-bit range of `int` ids and quantities is not modelled. Integers are unbounded, so neither an id overflow nor a quantity outside the JSON `int` range is represented.
- `Models/MenuItem.cs` and `Models/Order.cs` are not part of this model. Their fields are taken from how the seed list and the order handler use them.
